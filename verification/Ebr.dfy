/** Logical partitions: the chain of extended boot records, src/disk/parti386.c:473-613 and 729-857. */
module Ebr {
  import opened Arith
  import opened Disks
  import opened LittleEndian
  import opened Partitions
  import opened Chs

  const RECORD: nat := 512
  const TABLE: nat := 446

  // ----- where the next record goes -----

  /** One track up. */
  function TrackBefore(g: Geometry, c: CHS): CHS {
    if c.head > 0 then c.(head := c.head - 1) else CHS(c.cylinder - 1, if g.heads > 0 then g.heads - 1 else 0, c.sector)
  }

  /** The position of the record for the logical partition `next`, after `prev`: the start of the track before, else the
      start of the track, else the sector before the partition. */
  function NextRecord(g: Geometry, prev: Part, next: Part): nat
    requires Usable(g)
  {
    var exact := OffsetToChs(g, Minus(next.offset, g.sectorSize));
    var first := ChsToOffset(g, (if exact.sector != g.sectors then TrackBefore(g, exact) else exact).(sector := 1));
    var second := ChsToOffset(g, exact.(sector := 1));
    if first > LastByte(prev) then first
    else if second > LastByte(prev) then second
    else ChsToOffset(g, exact)
  }

  /** Start of the track that holds a sector, and of the one before it. */
  lemma TrackStarts(g: Geometry, lba: nat)
    requires Usable(g)
    ensures var c, track := ToChs(g, lba), lba / g.sectors;
            && ToLba(g, c.(sector := 1)) == track * g.sectors
            && ToLba(g, TrackBefore(g, c).(sector := 1)) == track * g.sectors - g.sectors
            && track * g.sectors <= lba && (c.sector == g.sectors <==> lba == track * g.sectors + g.sectors - 1)
            && (track == 0 <==> lba < g.sectors)
  {
    var track := lba / g.sectors;
    var c := ToChs(g, lba);
    assert lba == track * g.sectors + lba % g.sectors;
    TrackOf(g, track);
    assert (track - 1) * g.sectors == track * g.sectors - g.sectors;
    MulAtLeast(track, g.sectors);
  }

  /** Head and cylinder of a track, and of the one before it. */
  lemma TrackOf(g: Geometry, track: nat)
    requires Usable(g)
    ensures var c := CHS(track / g.heads, track % g.heads, 1);
            var before := TrackBefore(g, c);
            c.cylinder * g.heads + c.head == track && before.cylinder * g.heads + before.head == track - 1
  {
    assert track == track / g.heads * g.heads + track % g.heads;
    var cylinder := track / g.heads;
    assert (cylinder - 1) * g.heads == cylinder * g.heads - g.heads;
  }

  /** Between two partitions a sector apart, the record lies after the first and before the second exactly when the
      sector before the second one is not inside the first track: there the computation wraps around. */
  lemma RecordPosition(g: Geometry, prev: Part, next: Part)
    requires Usable(g) && prev.size > 0 && prev.End() % g.sectorSize == 0 && next.offset % g.sectorSize == 0
    requires prev.End() < next.offset && next.offset + g.sectors * g.sectorSize <= WORD64
    ensures g.sectorSize <= next.offset
    ensures prev.End() <= NextRecord(g, prev, next) <= next.offset - g.sectorSize <==>
              next.offset >= g.sectors * g.sectorSize
    ensures next.offset >= g.sectors * g.sectorSize ==> NextRecord(g, prev, next) % g.sectorSize == 0
  {
    hide NextRecord;
    var ss, s := g.sectorSize, g.sectors;
    MultiplesApart(prev.End(), next.offset, ss);
    var first, second, want := RecordChoices(g, prev, next);
    FirstTrack(next.offset, ss, s);
  }

  /** Such a pair: two partitions within the first 63 sectors. */
  lemma InFirstTrack() returns (g: Geometry, prev: Part, next: Part)
    ensures Usable(g) && prev.size > 0 && prev.End() % g.sectorSize == 0 && next.offset % g.sectorSize == 0
    ensures prev.End() < next.offset < g.sectors * g.sectorSize && next.offset + g.sectors * g.sectorSize <= WORD64
    ensures !(prev.End() <= NextRecord(g, prev, next) <= next.offset - g.sectorSize)
  {
    g := Geometry(100, 255, 63, 512);
    prev, next := BLANK.(offset := 1024, size := 512), BLANK.(offset := 4096, size := 512);
    RecordPosition(g, prev, next);
  }

  /** The three candidates, as numbers. */
  lemma RecordChoices(g: Geometry, prev: Part, next: Part) returns (first: nat, second: nat, want: nat)
    requires Usable(g) && next.offset % g.sectorSize == 0 && g.sectorSize <= next.offset
    requires next.offset + g.sectors * g.sectorSize <= WORD64
    ensures NextRecord(g, prev, next)
              == if first > LastByte(prev) then first else if second > LastByte(prev) then second else want
    ensures want == next.offset - g.sectorSize && second <= want
    ensures first % g.sectorSize == 0 || next.offset < g.sectors * g.sectorSize
    ensures second % g.sectorSize == 0 && want % g.sectorSize == 0
    ensures if next.offset >= g.sectors * g.sectorSize then first <= want
            else first == WORD64 - g.sectors * g.sectorSize
  {
    hide NextRecord;
    var ss, s := g.sectorSize, g.sectors;
    ModOfMultiple(1, ss);
    ModAdd(next.offset, ss, ss);
    want := next.offset - ss;
    var lba := want / ss;
    WholeMultiple(want, ss);
    FirstTrack(next.offset, ss, s);
    var base := TrackStart(lba, s);
    Candidates(g, prev, next, lba);
    var start := if lba != base + s - 1 then base - s else base;
    first, second := Scaled(start, ss), Scaled(base, ss);
    TrackBounds(lba, s);
    ScaledBelow(base, lba, ss);
    ScaledBelow(lba, lba, ss);
    if start >= 0 {
      ScaledBelow(start, lba, ss);
    } else {
      WrappedTrack(s, ss);
    }
  }

  /** The first sector of the track. */
  function TrackStart(lba: nat, s: nat): int
    requires s > 0
  {
    lba / s * s
  }

  /** n sectors, in 64-bit arithmetic. */
  function Scaled(n: int, ss: nat): nat {
    n * ss % WORD64
  }

  lemma Candidates(g: Geometry, prev: Part, next: Part, lba: nat)
    requires Usable(g) && lba == Minus(next.offset, g.sectorSize) / g.sectorSize
    ensures var base := TrackStart(lba, g.sectors);
            var first := Scaled(if lba != base + g.sectors - 1 then base - g.sectors else base, g.sectorSize);
            var second := Scaled(base, g.sectorSize);
            NextRecord(g, prev, next) == if first > LastByte(prev) then first
                                         else if second > LastByte(prev) then second
                                         else Scaled(lba, g.sectorSize)
  {
    hide ToChs, ToLba, TrackBefore;
    TrackStarts(g, lba);
    ChsRoundTrip(g, lba);
  }

  lemma TrackBounds(lba: nat, s: nat)
    requires s > 0
    ensures var base := TrackStart(lba, s);
            0 <= base <= lba < base + s && (base < s ==> base == 0)
  {
    assert lba == lba / s * s + lba % s;
    MulNonNeg(lba / s, s);
    MulAtLeast(lba / s, s);
  }

  lemma ScaledBelow(n: nat, lba: nat, ss: nat)
    requires ss > 0 && n <= lba && lba * ss < WORD64
    ensures Scaled(n, ss) <= lba * ss && Scaled(n, ss) % ss == 0 && (n == lba ==> Scaled(n, ss) == lba * ss)
  {
    assert lba * ss == n * ss + (lba - n) * ss;
    MulNonNeg(lba - n, ss);
    MulNonNeg(n, ss);
    SmallMod(n * ss, WORD64);
    ModOfMultiple(n, ss);
  }

  lemma WrappedTrack(s: nat, ss: nat)
    requires 0 < s * ss <= WORD64
    ensures Scaled(0 - s, ss) == WORD64 - s * ss
  {
    assert (0 - s) * ss == -(s * ss);
  }

  /** Comparing offsets of whole sectors with a track is comparing sector numbers. */
  lemma FirstTrack(offset: nat, ss: nat, s: nat)
    requires ss > 0 && s > 0 && offset % ss == 0 && offset >= ss
    ensures offset >= s * ss <==> (offset - ss) / ss >= s - 1
    ensures s * ss > 0
  {
    var n := offset / ss;
    WholeMultiple(offset, ss);
    assert offset - ss == (n - 1) * ss;
    ModOfMultiple(n - 1, ss);
    if n >= s {
      assert n * ss == s * ss + (n - s) * ss;
      MulNonNeg(n - s, ss);
    } else {
      assert s * ss == n * ss + (s - n) * ss;
      MulAtLeast(s - n, ss);
    }
    MulAtLeast(s, ss);
  }

  // ----- writing the chain -----

  /** A record: the code that was there, two entries, two empty ones and the signature. */
  function RecordBytes(code: seq<byte>, first: seq<byte>, link: seq<byte>): (b: seq<byte>)
    requires |code| == TABLE && |first| == ENTRY_SIZE && |link| == ENTRY_SIZE
    ensures |b| == RECORD
  {
    code + first + link + NulBytes(2 * ENTRY_SIZE) + [0x55, 0xAA]
  }

  const EXTENDED: nat := 5

  /** bloc_nextext: the part of the extended partition that belongs to the next logical one. */
  function Link(g: Geometry, prev: Part, next: Part): Part
    requires Usable(g)
  {
    var offset := NextRecord(g, prev, next);
    BLANK.(typeI386 := EXTENDED, offset := offset, size := Minus(next.End(), offset))
  }

  /** The record for logs[0]. */
  ghost function Record(g: Geometry, main: nat, pos: nat, logs: seq<Part>, code: seq<byte>): (b: seq<byte>)
    requires Usable(g) && |logs| > 0 && |code| == TABLE
    ensures |b| == RECORD
  {
    RecordBytes(code, EntryBytes(ToEntry(g, pos, logs[0])),
                if |logs| > 1 then EntryBytes(ToEntry(g, main, Link(g, logs[0], logs[1]))) else NulBytes(ENTRY_SIZE))
  }

  ghost predicate RecordsFit(g: Geometry, main: nat, pos: nat, logs: seq<Part>, size: nat)
    requires Usable(g)
    decreases |logs|
  {
    |logs| > 0 ==>
      && pos + RECORD <= size
      && (|logs| > 1 ==> RecordsFit(g, main, Link(g, logs[0], logs[1]).offset, logs[1..], size))
  }

  /** The disk after the loop of write_all_log_i386. */
  ghost function ChainContent(content: seq<byte>, g: Geometry, main: nat, pos: nat, logs: seq<Part>): (r: seq<byte>)
    requires Usable(g) && RecordsFit(g, main, pos, logs, |content|)
    ensures |r| == |content|
    decreases |logs|
  {
    if |logs| == 0 then content
    else
      var c := Patched(content, pos, Record(g, main, pos, logs, content[pos..pos + TABLE]));
      if |logs| == 1 then c else ChainContent(c, g, main, Link(g, logs[0], logs[1]).offset, logs[1..])
  }

  // ----- reading the chain -----

  /** The list so far, the number for the next logical partition, how many entries were added, and the next record. */
  datatype State = State(list: seq<Part>, order: nat, count: nat, next: seq<nat>)

  const MAX_ADDED: nat := 32

  /** One entry of the record at `ext`, in the extended partition at `main`. */
  function ReadEntry(g: Geometry, probe: Part -> nat, main: nat, ext: nat, e: DosEntry, s: State): (r: State)
    requires Usable(g)
    ensures r.count >= s.count && (r.next != s.next ==> r.count > s.count && |r.next| == 1)
  {
    if e.sysInd == 0 then s
    else if IsExtended(e.sysInd) then
      var x := Probed(probe, FromEntry(g, main, e, ExtInExt, s.order));
      var (list, added) := Added(s.list, x);
      if added then State(list, s.order, s.count + 1, [x.offset]) else s.(list := list)
    else
      var x := Probed(probe, FromEntry(g, ext, e, Log, s.order));
      var (list, added) := Added(s.list, x);
      State(list, s.order + 1, if added then s.count + 1 else s.count, s.next)
  }

  function EntryAt(sector: seq<byte>, i: nat): DosEntry
    requires |sector| == RECORD && i < 4
  {
    EntryOf(sector[TABLE + ENTRY_SIZE * i..TABLE + ENTRY_SIZE * (i + 1)])
  }

  /** The entries of a record, from the i-th. */
  function ReadEntries(g: Geometry, probe: Part -> nat, main: nat, ext: nat, sector: seq<byte>, i: nat,
                       s: State): (r: State)
    requires Usable(g) && |sector| == RECORD && i <= 4
    ensures r.count >= s.count && (r.next != s.next ==> r.count > s.count && |r.next| == 1)
    decreases 4 - i
  {
    if i == 4 then s
    else ReadEntries(g, probe, main, ext, sector, i + 1, ReadEntry(g, probe, main, ext, EntryAt(sector, i), s))
  }

  predicate Signed(sector: seq<byte>)
    requires |sector| == RECORD
  {
    sector[0x1FE] == 0x55 && sector[0x1FF] == 0xAA
  }

  /** get_ext_data_i386 from the record at `ext`, on a disk that serves reads in range. */
  function ReadChain(content: seq<byte>, g: Geometry, probe: Part -> nat, main: nat, ext: nat, s: State): seq<Part>
    requires Usable(g)
    decreases MAX_ADDED - s.count
  {
    if s.count >= MAX_ADDED || ext == 0 || ext + RECORD > |content| || !Signed(content[ext..ext + RECORD]) then s.list
    else
      var r := ReadEntries(g, probe, main, ext, content[ext..ext + RECORD], 0, s.(next := []));
      if r.next == [] then r.list else ReadChain(content, g, probe, main, r.next[0], r)
  }

  // ----- round trip -----

  /** The logical partitions of a list. */
  function LogsOf(v: seq<Part>): (r: seq<Part>)
    ensures forall i :: 0 <= i < |r| ==> r[i].status == Log
  {
    if |v| == 0 then [] else LogsOf(v[..|v| - 1]) + if v[|v| - 1].status == Log then [v[|v| - 1]] else []
  }

  lemma {:induction false} LogsOfConcat(a: seq<Part>, b: seq<Part>)
    ensures LogsOf(a + b) == LogsOf(a) + LogsOf(b)
    decreases |b|
  {
    if |b| == 0 {
      assert a + b == a;
    } else {
      assert (a + b)[..|a + b| - 1] == a + b[..|b| - 1];
      LogsOfConcat(a, b[..|b| - 1]);
    }
  }

  lemma {:induction false} LogsOfNone(v: seq<Part>)
    requires forall i :: 0 <= i < |v| ==> v[i].status != Log
    ensures LogsOf(v) == []
    decreases |v|
  {
    if |v| > 0 {
      LogsOfNone(v[..|v| - 1]);
    }
  }

  /** Everything in the list starts at or before `last`, or at or after `limit`; there are no logical partitions
      there. */
  ghost predicate RoomBetween(v: seq<Part>, last: nat, limit: nat) {
    && Ordered(v)
    && (forall i :: 0 <= i < |v| ==> v[i].offset <= last || v[i].offset >= limit)
    && (forall i :: 0 <= i < |v| && v[i].status == Log ==> v[i].offset <= last)
  }

  /** What lies in the room is new, and comes after all logical partitions. */
  lemma AddedInRoom(v: seq<Part>, x: Part, last: nat, limit: nat)
    requires RoomBetween(v, last, limit) && last < x.offset < limit
    ensures Added(v, x).1 && RoomBetween(Added(v, x).0, x.offset, limit)
    ensures LogsOf(Added(v, x).0) == LogsOf(v) + if x.status == Log then [x] else []
  {
    hide Ordered, LogsOf, Position, RoomBetween;
    NothingThere(v, x, last, limit);
    RoomAfter(v, x, last, limit);
    LogsInserted(v, x, last, limit);
  }

  lemma NothingThere(v: seq<Part>, x: Part, last: nat, limit: nat)
    requires RoomBetween(v, last, limit) && last < x.offset < limit
    ensures Added(v, x) == (InsertedAt(v, Position(v, x, false), x), true)
  {
    hide Ordered;
  }

  lemma RoomAfter(v: seq<Part>, x: Part, last: nat, limit: nat)
    requires RoomBetween(v, last, limit) && last < x.offset < limit
    ensures RoomBetween(InsertedAt(v, Position(v, x, false), x), x.offset, limit)
  {
    hide Ordered, Position;
    var k := Position(v, x, false);
    InsertKeepsOrder(v, x, false);
    var r := InsertedAt(v, k, x);
    forall i | 0 <= i < |r|
      ensures (r[i].offset <= x.offset || r[i].offset >= limit) && (r[i].status == Log ==> r[i].offset <= x.offset)
    {
      assert i != k ==> r[i] == v[if i < k then i else i - 1];
    }
  }

  lemma LogsInserted(v: seq<Part>, x: Part, last: nat, limit: nat)
    requires RoomBetween(v, last, limit) && last < x.offset < limit
    ensures LogsOf(InsertedAt(v, Position(v, x, false), x)) == LogsOf(v) + if x.status == Log then [x] else []
  {
    hide Ordered, LogsOf, Position;
    var k := Position(v, x, false);
    NoLogsAfter(v, x, last, limit);
    LogsOfThree(v[..k], x, v[k..]);
    assert v == v[..k] + v[k..];
  }

  lemma NoLogsAfter(v: seq<Part>, x: Part, last: nat, limit: nat)
    requires RoomBetween(v, last, limit) && last < x.offset < limit
    ensures LogsOf(v[Position(v, x, false)..]) == []
  {
    hide Ordered, LogsOf, Position;
    var k := Position(v, x, false);
    InsertKeepsOrder(v, x, false);
    var r := InsertedAt(v, k, x);
    var tail := v[k..];
    forall i | 0 <= i < |tail|
      ensures tail[i].status != Log
    {
      assert r[k + i + 1] == v[k + i];
      OrderedAt(r, k, k + i + 1);
    }
    LogsOfNone(tail);
  }

  lemma LogsOfThree(a: seq<Part>, x: Part, b: seq<Part>)
    requires LogsOf(b) == []
    ensures LogsOf(a + [x] + b) == LogsOf(a) + if x.status == Log then [x] else []
    ensures LogsOf(a + b) == LogsOf(a)
  {
    hide LogsOf;
    LogsOfConcat(a, b);
    LogsOfConcat(a + [x], b);
    LogsOfConcat(a, [x]);
    LogsOfOne(x);
  }

  lemma OrderedAt(v: seq<Part>, i: nat, j: nat)
    requires Ordered(v) && i < j < |v|
    ensures v[i].offset <= v[j].offset
  {
    assert NotAfter(v[i], v[j]);
  }

  lemma LogsOfOne(x: Part)
    ensures LogsOf([x]) == if x.status == Log then [x] else []
  {
    assert LogsOf([x][..0]) == [];
  }

  /** Logical partitions of whole sectors with a free sector before each, inside the extended partition [main, end),
      which starts past the first track and ends within 32-bit sector numbers and within the geometry. */
  ghost predicate WellPlaced(g: Geometry, main: nat, end: nat, logs: seq<Part>) {
    && Classic(g) && RECORD <= g.sectorSize && main % g.sectorSize == 0 && g.sectors * g.sectorSize <= main < end
    && end <= MAX32 * g.sectorSize && end + g.sectors * g.sectorSize <= WORD64
    && OffsetToChs(g, end - 1).cylinder < g.cylinders
    && (forall i :: 0 <= i < |logs| ==> LogicalIn(g, main, end, logs[i]))
    && (forall i :: 0 <= i < |logs| - 1 ==> logs[i].End() < logs[i + 1].offset)
  }

  /** Layouts like this exist: two one-megabyte logical partitions on a disk of 255 heads and 63 sectors. */
  lemma SomeWellPlaced() returns (g: Geometry, main: nat, end: nat, logs: seq<Part>)
    ensures WellPlaced(g, main, end, logs) && |logs| == 2
  {
    g, main, end := Geometry(100, 255, 63, 512), 0x10_0000, 0x50_0000;
    var log := BLANK.(size := 0x10_0000, typeI386 := 0x83, status := Log);
    logs := [log.(offset := 0x20_0000), log.(offset := 0x40_0000)];
  }

  /** And layouts of more partitions than are read back. */
  lemma SeventeenPlaced() returns (g: Geometry, main: nat, end: nat, logs: seq<Part>)
    ensures WellPlaced(g, main, end, logs) && |logs| == 17
  {
    g, main, end := Geometry(100, 255, 63, 512), 0x10_0000, 0x260_0000;
    var log := BLANK.(size := 0x10_0000, typeI386 := 0x83, status := Log);
    logs := seq(17, i requires 0 <= i < 17 => log.(offset := 0x20_0000 + i * 0x20_0000));
  }

  ghost predicate LogicalIn(g: Geometry, main: nat, end: nat, p: Part)
    requires Usable(g)
  {
    && main < p.offset && p.offset % g.sectorSize == 0 && p.size > 0 && p.size % g.sectorSize == 0 && p.End() <= end
    && 0 < p.typeI386 < 256 && !IsExtended(p.typeI386) && p.status == Log
  }

  /** A partition inside the extended one fits an entry of a table inside it. */
  lemma FitsInside(g: Geometry, main: nat, end: nat, pos: nat, p: Part)
    requires Classic(g) && 0 < end <= MAX32 * g.sectorSize && end <= WORD64
    requires OffsetToChs(g, end - 1).cylinder < g.cylinders
    requires pos <= p.offset && pos % g.sectorSize == 0 && p.offset % g.sectorSize == 0
    requires p.size > 0 && p.size % g.sectorSize == 0 && p.End() <= end && 0 < p.typeI386 < 256
    ensures Fits(g, pos, p) && g.sectorSize <= p.size
  {
    AtLeastOneSector(p.size, g.sectorSize);
    DivMonotone(p.offset - pos, MAX32 * g.sectorSize, g.sectorSize);
    DivMonotone(p.size, MAX32 * g.sectorSize, g.sectorSize);
    ModOfMultiple(MAX32, g.sectorSize);
    CylinderMonotone(g, p.End() - 1, end - 1);
  }

  /** The link to the second logical partition lies between the first and the second. */
  lemma LinkFits(g: Geometry, main: nat, end: nat, logs: seq<Part>)
    requires WellPlaced(g, main, end, logs) && |logs| > 1
    ensures g.sectorSize <= logs[1].offset
    ensures var link := Link(g, logs[0], logs[1]);
            && logs[0].End() <= link.offset <= logs[1].offset - g.sectorSize && link.offset % g.sectorSize == 0
            && link.End() == logs[1].End() && Fits(g, main, link) && g.sectorSize <= link.size
  {
    hide NextRecord, Fits, WellPlaced, OffsetToChs, Link;
    PlacedIn(g, main, end, logs, 0);
    PlacedIn(g, main, end, logs, 1);
    PlacedApart(g, main, end, logs);
    ModAdd(logs[0].offset, logs[0].size, g.sectorSize);
    RecordPosition(g, logs[0], logs[1]);
    LinkSpan(g, logs[0], logs[1]);
    var link := Link(g, logs[0], logs[1]);
    ModAdd(logs[1].offset, logs[1].size, g.sectorSize);
    ModAdd(logs[1].End(), link.offset, g.sectorSize);
    FitsInside(g, main, end, main, link);
  }

  lemma LinkSpan(g: Geometry, prev: Part, next: Part)
    requires Usable(g) && NextRecord(g, prev, next) <= next.End() < NextRecord(g, prev, next) + WORD64
    ensures var link := Link(g, prev, next);
            && link.offset == NextRecord(g, prev, next) && link.End() == next.End() && link.typeI386 == EXTENDED
  {
    hide NextRecord;
    SmallMod(next.End() - NextRecord(g, prev, next), WORD64);
  }

  lemma WellPlacedRest(g: Geometry, main: nat, end: nat, logs: seq<Part>)
    requires WellPlaced(g, main, end, logs) && |logs| > 0
    ensures WellPlaced(g, main, end, logs[1..])
  {
    forall i | 0 <= i < |logs[1..]|
      ensures LogicalIn(g, main, end, logs[1..][i])
    {
      assert logs[1..][i] == logs[i + 1];
    }
    forall i | 0 <= i < |logs[1..]| - 1
      ensures logs[1..][i].End() < logs[1..][i + 1].offset
    {
      assert logs[i + 1].End() < logs[i + 1 + 1].offset;
    }
  }

  /** The chain can be computed, and written to a disk that holds the extended partition. */
  lemma {:induction false} ChainPlaced(g: Geometry, main: nat, end: nat, pos: nat, logs: seq<Part>, size: nat)
    requires WellPlaced(g, main, end, logs) && main <= pos && pos % g.sectorSize == 0 && end <= size
    requires |logs| > 0 ==> pos < logs[0].offset
    ensures Usable(g) && RecordsFit(g, main, pos, logs, size)
    decreases |logs|
  {
    hide NextRecord, Fits;
    if |logs| > 0 {
      assert LogicalIn(g, main, end, logs[0]);
      FitsInside(g, main, end, pos, logs[0]);
      MultiplesApart(pos, logs[0].offset, g.sectorSize);
      if |logs| > 1 {
        LinkFits(g, main, end, logs);
        WellPlacedRest(g, main, end, logs);
        ChainPlaced(g, main, end, Link(g, logs[0], logs[1]).offset, logs[1..], size);
      }
    }
  }

  /** What a logical partition becomes when it is read. */
  function Found(probe: Part -> nat, p: Part, order: nat): Part {
    Probed(probe, BLANK.(offset := p.offset, size := p.size, typeI386 := p.typeI386, order := order, status := Log))
  }

  function FoundAll(probe: Part -> nat, logs: seq<Part>, order: nat): (r: seq<Part>)
    ensures |r| == |logs| && forall i :: 0 <= i < |r| ==> r[i] == Found(probe, logs[i], order + i)
  {
    seq(|logs|, i requires 0 <= i < |logs| => Found(probe, logs[i], order + i))
  }

  /** The entries of a record, as they were put there. */
  lemma RecordEntries(code: seq<byte>, first: seq<byte>, link: seq<byte>)
    requires |code| == TABLE && |first| == ENTRY_SIZE && |link| == ENTRY_SIZE
    ensures var b := RecordBytes(code, first, link);
            && Signed(b) && EntryAt(b, 0) == EntryOf(first) && EntryAt(b, 1) == EntryOf(link)
            && EntryAt(b, 2).sysInd == 0 && EntryAt(b, 3).sysInd == 0
  {
    var b := RecordBytes(code, first, link);
    assert b[TABLE..TABLE + ENTRY_SIZE] == first && b[TABLE + ENTRY_SIZE..TABLE + 2 * ENTRY_SIZE] == link;
    assert b[TABLE + 2 * ENTRY_SIZE..TABLE + 3 * ENTRY_SIZE] == NulBytes(ENTRY_SIZE);
    assert b[TABLE + 3 * ENTRY_SIZE..TABLE + 4 * ENTRY_SIZE] == NulBytes(ENTRY_SIZE);
  }

  /** Reading a record: its first entry, then its second. */
  lemma ReadRecord(g: Geometry, probe: Part -> nat, main: nat, ext: nat, code: seq<byte>, first: seq<byte>,
                   link: seq<byte>, s: State)
    requires Usable(g) && |code| == TABLE && |first| == ENTRY_SIZE && |link| == ENTRY_SIZE
    ensures ReadEntries(g, probe, main, ext, RecordBytes(code, first, link), 0, s)
            == ReadEntry(g, probe, main, ext, EntryOf(link), ReadEntry(g, probe, main, ext, EntryOf(first), s))
  {
    hide EntryAt, RecordBytes, FromEntry, EntryOf, Added;
    RecordEntries(code, first, link);
    var b := RecordBytes(code, first, link);
    var s1 := ReadEntry(g, probe, main, ext, EntryAt(b, 0), s);
    var s2 := ReadEntry(g, probe, main, ext, EntryAt(b, 1), s1);
    assert ReadEntries(g, probe, main, ext, b, 4, s2) == s2;
    assert ReadEntries(g, probe, main, ext, b, 3, s2) == s2;
    assert ReadEntries(g, probe, main, ext, b, 2, s2) == s2;
    assert ReadEntries(g, probe, main, ext, b, 1, s1) == s2;
  }

  /** The first entry of a record adds its logical partition. */
  lemma ReadLogical(g: Geometry, probe: Part -> nat, main: nat, end: nat, pos: nat, p: Part, s: State)
    requires Classic(g) && Fits(g, pos, p) && 0 < p.typeI386 < 256 && !IsExtended(p.typeI386) && g.sectorSize <= p.size
    requires RoomBetween(s.list, pos, end) && pos < p.offset < end
    ensures var r := ReadEntry(g, probe, main, pos, ToEntry(g, pos, p), s);
            && r.order == s.order + 1 && r.count == s.count + 1 && r.next == s.next
            && RoomBetween(r.list, p.offset, end) && LogsOf(r.list) == LogsOf(s.list) + [Found(probe, p, s.order)]
  {
    hide FromEntry, Fits, LogsOf, RoomBetween, Added;
    EntryRoundTrip(g, pos, p, Log, s.order);
    FromEntryIs(g, pos, ToEntry(g, pos, p), Log, s.order);
    AddedInRoom(s.list, Found(probe, p, s.order), pos, end);
  }

  /** Everything a decoded entry says. */
  lemma FromEntryIs(g: Geometry, base: nat, e: DosEntry, status: Status, order: nat)
    requires Usable(g)
    ensures var q := FromEntry(g, base, e, status, order);
            q == BLANK.(offset := q.offset, size := q.size, typeI386 := q.typeI386, order := order, status := q.status,
                        errcode := q.errcode)
  {
  }

  /** The second entry adds the link and leads to the next record. */
  lemma ReadLink(g: Geometry, probe: Part -> nat, main: nat, end: nat, ext: nat, link: Part, last: nat, s: State)
    requires Classic(g) && Fits(g, main, link) && IsExtended(link.typeI386) && g.sectorSize <= link.size
    requires RoomBetween(s.list, last, end) && last < link.offset < end
    ensures var r := ReadEntry(g, probe, main, ext, ToEntry(g, main, link), s);
            && r.order == s.order && r.count == s.count + 1 && r.next == [link.offset]
            && RoomBetween(r.list, link.offset, end) && LogsOf(r.list) == LogsOf(s.list)
  {
    hide FromEntry, Fits, LogsOf, RoomBetween, Added;
    EntryRoundTrip(g, main, link, ExtInExt, s.order);
    var x := Probed(probe, FromEntry(g, main, ToEntry(g, main, link), ExtInExt, s.order));
    AddedInRoom(s.list, x, last, end);
  }

  /** Writing the later records leaves everything before them alone. */
  lemma {:induction false} ChainKeepsBelow(content: seq<byte>, g: Geometry, main: nat, end: nat, pos: nat,
                                           logs: seq<Part>)
    requires WellPlaced(g, main, end, logs) && RecordsFit(g, main, pos, logs, |content|)
    requires |logs| > 0 ==> pos <= logs[0].offset
    ensures pos <= |content| ==> ChainContent(content, g, main, pos, logs)[..pos] == content[..pos]
    decreases |logs|
  {
    hide WellPlaced, Record, Link;
    if |logs| > 0 {
      PlacedIn(g, main, end, logs, 0);
      var c := Patched(content, pos, Record(g, main, pos, logs, content[pos..pos + TABLE]));
      assert c[..pos] == content[..pos];
      if |logs| > 1 {
        LinkFits(g, main, end, logs);
        WellPlacedRest(g, main, end, logs);
        var next := Link(g, logs[0], logs[1]).offset;
        ChainKeepsBelow(c, g, main, end, next, logs[1..]);
        assert ChainContent(content, g, main, pos, logs)[..pos]
                == ChainContent(c, g, main, next, logs[1..])[..next][..pos];
      }
    }
  }

  /** The first record, as it is on the disk in the end. */
  lemma FirstRecord(content: seq<byte>, g: Geometry, main: nat, end: nat, pos: nat, logs: seq<Part>)
    requires WellPlaced(g, main, end, logs) && RecordsFit(g, main, pos, logs, |content|)
    requires |logs| > 0 && pos < logs[0].offset && pos % g.sectorSize == 0
    ensures var c := ChainContent(content, g, main, pos, logs);
            c[pos..pos + RECORD] == Record(g, main, pos, logs, content[pos..pos + TABLE])
  {
    hide Record, Link, WellPlaced, OffsetToChs;
    PlacedIn(g, main, end, logs, 0);
    var c := Patched(content, pos, Record(g, main, pos, logs, content[pos..pos + TABLE]));
    assert c[pos..pos + RECORD] == Record(g, main, pos, logs, content[pos..pos + TABLE]);
    if |logs| > 1 {
      LargeSectors(g, main, end, logs);
      LinkFits(g, main, end, logs);
      WellPlacedRest(g, main, end, logs);
      var next := Link(g, logs[0], logs[1]).offset;
      MultiplesApart(pos, logs[0].offset, g.sectorSize);
      ChainKeepsBelow(c, g, main, end, next, logs[1..]);
      var r := ChainContent(c, g, main, next, logs[1..]);
      assert r[pos..pos + RECORD] == r[..next][pos..pos + RECORD];
      assert c[..next][pos..pos + RECORD] == c[pos..pos + RECORD];
    }
  }

  /** Reading the first record of a written chain. */
  lemma FirstRecordRead(content: seq<byte>, g: Geometry, probe: Part -> nat, main: nat, end: nat, pos: nat,
                        logs: seq<Part>, s: State)
    requires WellPlaced(g, main, end, logs) && RecordsFit(g, main, pos, logs, |content|)
    requires main <= pos && pos % g.sectorSize == 0 && |logs| > 0 && pos < logs[0].offset
    requires RoomBetween(s.list, pos, end) && s.next == []
    ensures var sector := ChainContent(content, g, main, pos, logs)[pos..pos + RECORD];
            var r := ReadEntries(g, probe, main, pos, sector, 0, s);
            && Signed(sector) && r.order == s.order + 1
            && LogsOf(r.list) == LogsOf(s.list) + [Found(probe, logs[0], s.order)]
            && (if |logs| == 1 then r.next == []
                else
                  && r.next == [Link(g, logs[0], logs[1]).offset] && r.count == s.count + 2
                  && RoomBetween(r.list, r.next[0], end))
  {
    hide ChainContent, RoomBetween, LogsOf, ReadEntry, Found, RecordBytes, ReadEntries, Link, Fits, ToEntry, EntryBytes,
         EntryOf,
         WellPlaced, LogicalIn;
    FirstRecord(content, g, main, end, pos, logs);
    FirstFits(g, main, end, pos, logs);
    var code := content[pos..pos + TABLE];
    var first := EntryBytes(ToEntry(g, pos, logs[0]));
    ToEntryIsSmall(g, pos, logs[0]);
    ReadLogical(g, probe, main, end, pos, logs[0], s);
    var s1 := ReadEntry(g, probe, main, pos, EntryOf(first), s);
    if |logs| == 1 {
      RecordEntries(code, first, NulBytes(ENTRY_SIZE));
      ReadRecord(g, probe, main, pos, code, first, NulBytes(ENTRY_SIZE), s);
      NoEntry(g, probe, main, pos, s1);
    } else {
      var link := Link(g, logs[0], logs[1]);
      LinkFits(g, main, end, logs);
      LinkIsExtended(g, logs[0], logs[1]);
      ToEntryIsSmall(g, main, link);
      RecordEntries(code, first, EntryBytes(ToEntry(g, main, link)));
      ReadRecord(g, probe, main, pos, code, first, EntryBytes(ToEntry(g, main, link)), s);
      SecondInside(g, main, end, logs);
      ReadLink(g, probe, main, end, pos, link, logs[0].offset, s1);
    }
  }

  lemma FirstFits(g: Geometry, main: nat, end: nat, pos: nat, logs: seq<Part>)
    requires WellPlaced(g, main, end, logs) && |logs| > 0 && pos < logs[0].offset && pos % g.sectorSize == 0
    ensures Fits(g, pos, logs[0]) && g.sectorSize <= logs[0].size && logs[0].offset < end && logs[0].size > 0
    ensures 0 < logs[0].typeI386 < 256 && !IsExtended(logs[0].typeI386) && Classic(g)
  {
    hide WellPlaced, Fits, OffsetToChs;
    PlacedIn(g, main, end, logs, 0);
    FitsInside(g, main, end, pos, logs[0]);
  }

  /** One partition of the layout, and where the extended partition ends. */
  lemma PlacedIn(g: Geometry, main: nat, end: nat, logs: seq<Part>, i: nat)
    requires WellPlaced(g, main, end, logs) && i < |logs|
    ensures Classic(g) && LogicalIn(g, main, end, logs[i])
    ensures 0 < end <= MAX32 * g.sectorSize && end <= WORD64 && OffsetToChs(g, end - 1).cylinder < g.cylinders
  {
    hide OffsetToChs;
    MulNonNeg(g.sectors, g.sectorSize);
  }

  lemma PlacedApart(g: Geometry, main: nat, end: nat, logs: seq<Part>)
    requires WellPlaced(g, main, end, logs) && |logs| > 1
    ensures logs[0].End() < logs[1].offset && g.sectors * g.sectorSize <= logs[1].offset && main % g.sectorSize == 0
    ensures logs[1].offset + g.sectors * g.sectorSize <= WORD64
  {
    hide OffsetToChs;
    assert LogicalIn(g, main, end, logs[1]);
  }

  lemma SecondInside(g: Geometry, main: nat, end: nat, logs: seq<Part>)
    requires WellPlaced(g, main, end, logs) && |logs| > 1
    ensures logs[1].offset < end
  {
    assert LogicalIn(g, main, end, logs[1]);
  }

  lemma LinkIsExtended(g: Geometry, prev: Part, next: Part)
    requires Usable(g)
    ensures IsExtended(Link(g, prev, next).typeI386)
  {
  }

  lemma ToEntryIsSmall(g: Geometry, pos: nat, p: Part)
    requires Usable(g)
    ensures EntryOf(EntryBytes(ToEntry(g, pos, p))) == ToEntry(g, pos, p)
  {
    EntryBytesRoundTrip(ToEntry(g, pos, p));
  }

  lemma NoEntry(g: Geometry, probe: Part -> nat, main: nat, ext: nat, s: State)
    requires Usable(g)
    ensures ReadEntry(g, probe, main, ext, EntryOf(NulBytes(ENTRY_SIZE)), s) == s
  {
  }

  lemma FoundFirst(probe: Part -> nat, logs: seq<Part>, order: nat, m: nat)
    requires 0 < m <= |logs|
    ensures FoundAll(probe, logs[..m], order)
              == [Found(probe, logs[0], order)] + FoundAll(probe, logs[1..][..m - 1], order + 1)
  {
    hide Found;
  }

  /** How many of n partitions are read when `count` entries have been added before. */
  function Readable(n: nat, count: nat): (m: nat)
    requires count <= MAX_ADDED
    ensures m <= n
  {
    if n <= (MAX_ADDED - count) / 2 then n else (MAX_ADDED - count) / 2
  }

  /** Reading a written chain, up to the second record: what follows is a written chain again. */
  lemma ReadOneRecord(content: seq<byte>, g: Geometry, probe: Part -> nat, main: nat, end: nat, pos: nat,
                      logs: seq<Part>, s: State)
    returns (rest: seq<byte>, next: nat, s2: State)
    requires WellPlaced(g, main, end, logs) && main <= pos && pos % g.sectorSize == 0 && end <= |content|
    requires |logs| > 0 && pos < logs[0].offset && s.count < MAX_ADDED && RoomBetween(s.list, pos, end)
    ensures Usable(g) && RecordsFit(g, main, pos, logs, |content|)
    ensures s2.order == s.order + 1 && LogsOf(s2.list) == LogsOf(s.list) + [Found(probe, logs[0], s.order)]
    ensures var result := ReadChain(ChainContent(content, g, main, pos, logs), g, probe, main, pos, s);
            if |logs| == 1 then result == s2.list
            else
              && |rest| == |content| && main <= next < logs[1].offset && next % g.sectorSize == 0
              && s2.count == s.count + 2
              && RoomBetween(s2.list, next, end) && WellPlaced(g, main, end, logs[1..])
              && RecordsFit(g, main, next, logs[1..], |rest|)
              && result == ReadChain(ChainContent(rest, g, main, next, logs[1..]), g, probe, main, next, s2)
  {
    hide WellPlaced, Link, RoomBetween, LogsOf, ReadEntries, Found, LogicalIn, Record, ReadChain, Signed, Fits;
    ChainPlaced(g, main, end, pos, logs, |content|);
    FirstFits(g, main, end, pos, logs);
    FirstInRange(g, main, end, pos, logs, |content|);
    var c := ChainContent(content, g, main, pos, logs);
    ReadChainStep(c, g, probe, main, pos, s);
    FirstRecordRead(content, g, probe, main, end, pos, logs, s.(next := []));
    s2 := ReadEntries(g, probe, main, pos, c[pos..pos + RECORD], 0, s.(next := []));
    rest, next := content, 0;
    if |logs| > 1 {
      LinkFits(g, main, end, logs);
      WellPlacedRest(g, main, end, logs);
      next := Link(g, logs[0], logs[1]).offset;
      rest := Patched(content, pos, Record(g, main, pos, logs, content[pos..pos + TABLE]));
    }
  }

  lemma ReadableStep(n: nat, count: nat)
    requires count <= MAX_ADDED && count % 2 == 0 && n > 0
    ensures count == MAX_ADDED ==> Readable(n, count) == 0
    ensures count < MAX_ADDED ==> Readable(n, count) > 0 && Readable(n - 1, count + 2) == Readable(n, count) - 1
  {
  }

  /** Reading a written chain finds its partitions in order, until 32 entries have been added: that is two for every
      partition, so the first sixteen. */
  lemma {:induction false} ChainRoundTrip(content: seq<byte>, g: Geometry, probe: Part -> nat, main: nat, end: nat,
                                          pos: nat,
                                          logs: seq<Part>, s: State)
    requires WellPlaced(g, main, end, logs) && main <= pos && pos % g.sectorSize == 0 && end <= |content|
    requires |logs| > 0 && pos < logs[0].offset && s.count % 2 == 0 && s.count <= MAX_ADDED
    requires RoomBetween(s.list, pos, end)
    ensures Usable(g) && RecordsFit(g, main, pos, logs, |content|)
    ensures LogsOf(ReadChain(ChainContent(content, g, main, pos, logs), g, probe, main, pos, s))
              == LogsOf(s.list) + FoundAll(probe, logs[..Readable(|logs|, s.count)], s.order)
    decreases |logs|
  {
    hide WellPlaced, RoomBetween, LogsOf, FoundAll, Found, ReadChain, RecordsFit, ChainContent, Readable, Fits;
    ReadableStep(|logs|, s.count);
    ChainPlaced(g, main, end, pos, logs, |content|);
    FirstFits(g, main, end, pos, logs);
    var m := Readable(|logs|, s.count);
    ReadChainStep(ChainContent(content, g, main, pos, logs), g, probe, main, pos, s);
    if s.count == MAX_ADDED {
      FoundNone(probe, logs, s.order);
    } else {
      var rest, next, s2 := ReadOneRecord(content, g, probe, main, end, pos, logs, s);
      FoundFirst(probe, logs, s.order, m);
      if |logs| == 1 {
        FoundNone(probe, logs[1..], s.order + 1);
      } else {
        ChainRoundTrip(rest, g, probe, main, end, next, logs[1..], s2);
        Split(LogsOf(s.list), [Found(probe, logs[0], s.order)], FoundAll(probe, logs[1..][..m - 1], s.order + 1));
      }
    }
  }

  lemma FirstInRange(g: Geometry, main: nat, end: nat, pos: nat, logs: seq<Part>, size: nat)
    requires WellPlaced(g, main, end, logs) && main <= pos && RecordsFit(g, main, pos, logs, size) && |logs| > 0
    ensures 0 < pos && pos + RECORD <= size
  {
    MulAtLeast(g.sectors, g.sectorSize);
  }

  lemma FoundNone(probe: Part -> nat, logs: seq<Part>, order: nat)
    ensures FoundAll(probe, logs[..0], order) == []
  {
  }

  lemma ReadChainStep(content: seq<byte>, g: Geometry, probe: Part -> nat, main: nat, ext: nat, s: State)
    requires Usable(g)
    ensures s.count >= MAX_ADDED ==> ReadChain(content, g, probe, main, ext, s) == s.list
    ensures s.count < MAX_ADDED && ext > 0 && ext + RECORD <= |content| && Signed(content[ext..ext + RECORD]) ==>
              var r := ReadEntries(g, probe, main, ext, content[ext..ext + RECORD], 0, s.(next := []));
              ReadChain(content, g, probe, main, ext, s)
              == if r.next == [] then r.list else ReadChain(content, g, probe, main, r.next[0], r)
  {
  }

  /** Write, then read, with the primary partitions `base` read before: all logical partitions come back, numbered from
      5 and without error, exactly when there are at most sixteen of them; otherwise the first sixteen do. */
  lemma LogicalsRoundTrip(content: seq<byte>, g: Geometry, probe: Part -> nat, main: nat, end: nat, logs: seq<Part>,
                          base: seq<Part>)
    requires WellPlaced(g, main, end, logs) && end <= |content| && |logs| > 0
    requires Ordered(base) && forall i :: 0 <= i < |base| ==>
              base[i].status != Log && (base[i].offset <= main || base[i].offset >= end)
    ensures Usable(g) && RecordsFit(g, main, main, logs, |content|)
    ensures var found := LogsOf(ReadChain(ChainContent(content, g, main, main, logs), g, probe, main, main,
                                          State(base, 5, 0, [])));
            && found == FoundAll(probe, logs[..if |logs| <= 16 then |logs| else 16], 5)
            && (|found| == |logs| <==> |logs| <= 16)
  {
    hide ReadChain, ChainContent, Ordered, RecordsFit, Found;
    LogsOfNone(base);
    assert LogicalIn(g, main, end, logs[0]);
    ChainRoundTrip(content, g, probe, main, end, main, logs, State(base, 5, 0, []));
  }

  /** A seventeenth partition that is written, and not read. */
  lemma SeventeenthIsLost(probe: Part -> nat) returns (content: seq<byte>, g: Geometry, main: nat, logs: seq<Part>)
    ensures Usable(g) && RecordsFit(g, main, main, logs, |content|) && |logs| == 17
    ensures |LogsOf(ReadChain(ChainContent(content, g, main, main, logs), g, probe, main, main, State([], 5, 0, [])))|
              == 16
  {
    hide WellPlaced, ReadChain, ChainContent, RecordsFit, Found;
    var end;
    g, main, end, logs := SeventeenPlaced();
    content := NulBytes(end);
    LogicalsRoundTrip(content, g, probe, main, end, logs, []);
  }

  // ----- the bytes of a chain -----

  /** The 512 bytes at `at`: the code as it was, the entry of p, a link to the next partition, and the signature. */
  ghost predicate IsRecord(c: seq<byte>, at: nat, code: seq<byte>, g: Geometry, main: nat, p: Part, next: seq<Part>)
    requires Usable(g)
  {
    && at + 512 <= |c| && c[at..at + 446] == code
    && c[at + 446..at + 462] == EntryBytes(ToEntry(g, at, p))
    && c[at + 462..at + 478] == (if |next| > 0 then EntryBytes(ToEntry(g, main, Link(g, p, next[0])))
                                 else NulBytes(16))
    && c[at + 478..at + 510] == NulBytes(32) && c[at + 510] == 0x55 && c[at + 511] == 0xAA
  }

  lemma FirstIsRecord(content: seq<byte>, g: Geometry, main: nat, end: nat, pos: nat, logs: seq<Part>)
    requires WellPlaced(g, main, end, logs) && RecordsFit(g, main, pos, logs, |content|)
    requires |logs| > 0 && pos < logs[0].offset && pos % g.sectorSize == 0
    ensures IsRecord(ChainContent(content, g, main, pos, logs), pos, content[pos..pos + TABLE], g, main, logs[0],
                     logs[1..])
  {
    hide ToEntry, Link, ChainContent, EntryBytes, OffsetToChs, LogicalIn;
    FirstRecord(content, g, main, end, pos, logs);
    var c, code := ChainContent(content, g, main, pos, logs), content[pos..pos + TABLE];
    var link := if |logs| > 1 then EntryBytes(ToEntry(g, main, Link(g, logs[0], logs[1]))) else NulBytes(ENTRY_SIZE);
    PlacesInRecord(c, pos, code, EntryBytes(ToEntry(g, pos, logs[0])), link);
  }

  lemma PlacesInRecord(c: seq<byte>, pos: nat, code: seq<byte>, first: seq<byte>, link: seq<byte>)
    requires |code| == TABLE && |first| == ENTRY_SIZE && |link| == ENTRY_SIZE
    requires pos + RECORD <= |c| && c[pos..pos + RECORD] == RecordBytes(code, first, link)
    ensures c[pos..pos + 446] == code && c[pos + 446..pos + 462] == first && c[pos + 462..pos + 478] == link
    ensures c[pos + 478..pos + 510] == NulBytes(32) && c[pos + 510] == 0x55 && c[pos + 511] == 0xAA
  {
    var b := RecordBytes(code, first, link);
    assert b[0..446] == code && b[446..462] == first && b[462..478] == link && b[478..510] == NulBytes(32);
    Within(c, pos, pos + RECORD, 0, 446);
    Within(c, pos, pos + RECORD, 446, 462);
    Within(c, pos, pos + RECORD, 462, 478);
    Within(c, pos, pos + RECORD, 478, 510);
    assert c[pos + 510] == b[510] && c[pos + 511] == b[511];
  }

  /** Where the record of the i-th logical partition is. */
  function RecordAt(g: Geometry, pos: nat, logs: seq<Part>, i: nat): nat
    requires Usable(g) && i < |logs|
  {
    if i == 0 then pos else NextRecord(g, logs[i - 1], logs[i])
  }

  /** Every record of a written chain, as it is on the disk in the end; the code before its table is kept. */
  lemma {:induction false} RecordOnDisk(content: seq<byte>, g: Geometry, main: nat, end: nat, pos: nat,
                                        logs: seq<Part>, i: nat)
    requires WellPlaced(g, main, end, logs) && RecordsFit(g, main, pos, logs, |content|) && i < |logs|
    requires pos < logs[0].offset && pos % g.sectorSize == 0
    ensures pos <= RecordAt(g, pos, logs, i) && RecordAt(g, pos, logs, i) + 446 <= |content|
    ensures var at := RecordAt(g, pos, logs, i);
            IsRecord(ChainContent(content, g, main, pos, logs), at, content[at..at + 446], g, main, logs[i],
                     logs[i + 1..])
    decreases i
  {
    hide WellPlaced, Record, Link, IsRecord, NextRecord;
    if i == 0 {
      FirstIsRecord(content, g, main, end, pos, logs);
    } else {
      PlacedIn(g, main, end, logs, 0);
      MultiplesApart(pos, logs[0].offset, g.sectorSize);
      LinkFits(g, main, end, logs);
      WellPlacedRest(g, main, end, logs);
      LargeSectors(g, main, end, logs);
      var next := Link(g, logs[0], logs[1]).offset;
      var c := Patched(content, pos, Record(g, main, pos, logs, content[pos..pos + TABLE]));
      RecordOnDisk(c, g, main, end, next, logs[1..], i - 1);
      LinkStart(g, logs[0], logs[1]);
      var at := RecordAt(g, pos, logs, i);
      assert at == RecordAt(g, next, logs[1..], i - 1) && logs[1..][i..] == logs[i + 1..];
      assert c[at..at + 446] == content[at..at + 446];
    }
  }

  lemma LinkStart(g: Geometry, prev: Part, next: Part)
    requires Usable(g)
    ensures Link(g, prev, next).offset == NextRecord(g, prev, next)
  {
    hide NextRecord;
  }

  lemma LargeSectors(g: Geometry, main: nat, end: nat, logs: seq<Part>)
    requires WellPlaced(g, main, end, logs)
    ensures RECORD <= g.sectorSize
  {
  }

  /** All four entries of a record are read, in this order. */
  lemma FourEntries(g: Geometry, probe: Part -> nat, main: nat, ext: nat, b: seq<byte>, s: State)
    requires Usable(g) && |b| == 512
    ensures var s1 := ReadEntry(g, probe, main, ext, EntryOf(b[446..462]), s);
            var s2 := ReadEntry(g, probe, main, ext, EntryOf(b[462..478]), s1);
            var s3 := ReadEntry(g, probe, main, ext, EntryOf(b[478..494]), s2);
            ReadEntries(g, probe, main, ext, b, 0, s) == ReadEntry(g, probe, main, ext, EntryOf(b[494..510]), s3)
  {
    hide ReadEntry, EntryOf;
    var s1 := ReadEntry(g, probe, main, ext, EntryAt(b, 0), s);
    var s2 := ReadEntry(g, probe, main, ext, EntryAt(b, 1), s1);
    var s3 := ReadEntry(g, probe, main, ext, EntryAt(b, 2), s2);
    var s4 := ReadEntry(g, probe, main, ext, EntryAt(b, 3), s3);
    assert ReadEntries(g, probe, main, ext, b, 4, s4) == s4;
    assert ReadEntries(g, probe, main, ext, b, 3, s3) == s4;
    assert ReadEntries(g, probe, main, ext, b, 2, s2) == s4;
    assert ReadEntries(g, probe, main, ext, b, 1, s1) == s4;
  }

  /** Whatever an entry in use says, and whatever errors it has, a partition of its place, size and type is listed
      afterwards; logical partitions are counted from the record, links from the extended partition. */
  lemma AnyEntryIsListed(g: Geometry, probe: Part -> nat, main: nat, ext: nat, e: DosEntry, s: State)
    requires Usable(g) && e.sysInd != 0
    ensures var link := e.sysInd == 0x05 || e.sysInd == 0x0f || e.sysInd == 0x85;
            var r, base := ReadEntry(g, probe, main, ext, e, s), if link then main else ext;
            && r.order == (if link then s.order else s.order + 1)
            && exists k :: 0 <= k < |r.list| && r.list[k].offset == base + e.start * g.sectorSize
                           && r.list[k].size == e.count * g.sectorSize && r.list[k].typeI386 == e.sysInd
  {
    hide FromEntry, Position;
    var link := IsExtended(e.sysInd);
    var base, status := if link then main else ext, if link then ExtInExt else Log;
    DecodedEntry(g, base, e, status, s.order);
    var x := Probed(probe, FromEntry(g, base, e, status, s.order));
    var k := Position(s.list, x, false);
    assert Added(s.list, x).0[k].offset == x.offset;
  }
}

/** write_all_log_i386 and get_ext_data_i386. */
module EbrChains {
  import opened Disks
  import opened ListOrder
  import opened Partitions
  import opened Chs
  import opened Ebr

  /** The last extended partition of the list, -1 when there is none. */
  function ExtIndex(v: seq<Part>): (k: int)
    ensures -1 <= k < |v|
    ensures k >= 0 ==> v[k].status == Ext && IsExtended(v[k].typeI386)
    ensures forall i :: k < i < |v| ==> !(v[i].status == Ext && IsExtended(v[i].typeI386))
  {
    if |v| == 0 then -1
    else if v[|v| - 1].status == Ext && IsExtended(v[|v| - 1].typeI386) then |v| - 1
    else ExtIndex(v[..|v| - 1])
  }

  /** The logical partitions that follow directly. */
  function LogRun(v: seq<Part>): (r: seq<Part>)
    ensures |r| <= |v| && r == v[..|r|] && (forall i :: 0 <= i < |r| ==> r[i].status == Log)
    ensures |r| < |v| ==> v[|r|].status != Log
  {
    if |v| == 0 || v[0].status != Log then [] else [v[0]] + LogRun(v[1..])
  }

  /** The content write_all_log_i386 leaves, on a disk that serves what is in range. */
  ghost function Written(content: seq<byte>, g: Geometry, main: nat, logs: seq<Part>): seq<byte>
    requires Usable(g) && main + RECORD <= |content| && RecordsFit(g, main, main, logs, |content|)
  {
    if |logs| == 0 then
      Patched(content, main, RecordBytes(content[main..main + TABLE], NulBytes(ENTRY_SIZE), NulBytes(ENTRY_SIZE)))
    else ChainContent(content, g, main, main, logs)
  }

  /** The position of the extended partition and the logical partitions after it. */
  ghost predicate Layout(v: seq<Part>, main: nat, logs: seq<Part>) {
    var k := ExtIndex(v);
    k >= 0 && main == v[k].offset && logs == LogRun(v[k + 1..])
  }

  /** write_all_log_i386 */
  method WriteAllLog(disk: Disk, g: Geometry, list: seq<Partition>, ro: bool, ghost main: nat, ghost logs: seq<Part>)
    returns (res: int)
    requires Usable(g) && (ExtIndex(View(list)) >= 0 ==> Layout(View(list), main, logs))
    modifies disk
    ensures |disk.content| == |old(disk.content)| && res in {0, 1}
    ensures ro || ExtIndex(View(list)) < 0 ==> disk.content == old(disk.content) && res == 0
    ensures ExtIndex(View(list)) >= 0 && disk.reliable && !ro && main + RECORD <= |disk.content| ==>
              RecordsFit(g, main, main, logs, |disk.content|) ==>
              res == 0 && disk.content == Written(old(disk.content), g, main, logs)
  {
    hide RecordsFit, ChainContent, RecordBytes, Patched, ExtIndex;
    var posExt := FindExt(list);
    if posExt < 0 {
      return 0;
    }
    var run := CollectRun(list, posExt + 1);
    if |run| == 0 {
      var code := ReadCode(disk, list[posExt].p.offset);
      res := Store(disk, RecordBytes(code, NulBytes(ENTRY_SIZE), NulBytes(ENTRY_SIZE)), list[posExt].p.offset, ro);
    } else {
      res := WriteRun(disk, g, list[posExt].p.offset, run, ro);
    }
  }

  method FindExt(list: seq<Partition>) returns (k: int)
    ensures k == ExtIndex(View(list))
  {
    k := -1;
    ghost var v := View(list);
    for i := 0 to |list|
      invariant k == ExtIndex(v[..i])
    {
      assert v[..i + 1][..i] == v[..i];
      if list[i].p.status == Ext && IsExtended(list[i].p.typeI386) {
        k := i;
      }
    }
    assert v[..|list|] == v;
  }

  /** What was in front of the partition table; zeros when it cannot be read. */
  method ReadCode(disk: Disk, pos: nat) returns (code: seq<byte>)
    ensures |code| == TABLE
    ensures disk.reliable && pos + RECORD <= |disk.content| ==> code == disk.content[pos..pos + TABLE]
  {
    var status, data := disk.Pread(RECORD, pos);
    assert data[..RECORD] == data;
    assert pos + RECORD <= |disk.content| ==>
            disk.content[pos..pos + RECORD][..TABLE] == disk.content[pos..pos + TABLE];
    code := if status == RECORD then data[..TABLE] else NulBytes(TABLE);
  }

  method Store(disk: Disk, record: seq<byte>, pos: nat, ro: bool) returns (res: int)
    requires |record| == RECORD
    modifies disk
    ensures |disk.content| == |old(disk.content)| && res in {0, 1}
    ensures ro ==> res == 0 && disk.content == old(disk.content)
    ensures !ro && disk.reliable && pos + RECORD <= |disk.content| ==>
              res == 0 && disk.content == Patched(old(disk.content), pos, record)
  {
    res := 0;
    if !ro {
      var status := disk.Pwrite(record, pos);
      if status != RECORD {
        res := 1;
      }
    }
  }

  /** The logical partitions that follow element `from` - 1. */
  method CollectRun(list: seq<Partition>, from: nat) returns (logs: seq<Part>)
    requires from <= |list|
    ensures logs == LogRun(View(list)[from..])
  {
    hide LogRun, View;
    ghost var all := View(list);
    logs := [];
    var i := from;
    while i < |list| && list[i].p.status == Log
      invariant from <= i <= |list|
      invariant logs + LogRun(all[i..]) == LogRun(all[from..])
      decreases |list| - i
    {
      LogRunStep(all, i);
      assert logs + ([list[i].p] + LogRun(all[i + 1..])) == logs + [list[i].p] + LogRun(all[i + 1..]);
      logs := logs + [list[i].p];
      i := i + 1;
    }
    LogRunStep(all, i);
  }

  lemma LogRunStep(v: seq<Part>, n: nat)
    requires n <= |v|
    ensures LogRun(v[n..]) == if n < |v| && v[n].status == Log then [v[n]] + LogRun(v[n + 1..]) else []
    ensures LogRun(v[0..]) == LogRun(v)
  {
    assert v[0..] == v;
    if n < |v| {
      assert v[n..][1..] == v[n + 1..];
    }
  }

  /** The loop of write_all_log_i386 over the logical partitions. */
  method WriteRun(disk: Disk, g: Geometry, main: nat, logs: seq<Part>, ro: bool) returns (res: int)
    requires Usable(g) && |logs| > 0
    modifies disk
    ensures |disk.content| == |old(disk.content)| && res in {0, 1}
    ensures ro ==> disk.content == old(disk.content) && res == 0
    ensures disk.reliable && !ro && RecordsFit(g, main, main, logs, |disk.content|) ==>
              res == 0 && disk.content == ChainContent(old(disk.content), g, main, main, logs)
  {
    hide RecordsFit, ChainContent, Record, Link, NextRecord, Patched;
    ghost var fits := disk.reliable && !ro && RecordsFit(g, main, main, logs, |disk.content|);
    var currentPos := main;
    res := 0;
    assert logs[0..] == logs;
    for i := 0 to |logs|
      invariant |disk.content| == |old(disk.content)| && res in {0, 1}
      invariant (ro ==> disk.content == old(disk.content) && res == 0)
      invariant fits ==> res == 0 && RecordsFit(g, main, currentPos, logs[i..], |disk.content|)
      invariant fits ==>
                  ChainContent(disk.content, g, main, currentPos, logs[i..])
                    == ChainContent(old(disk.content), g, main, main, logs)
    {
      ghost var rest := logs[i..];
      assert rest[1..] == logs[i + 1..];
      ChainParts(disk.content, g, main, currentPos, rest);
      var r, nextPos := WriteOne(disk, g, main, currentPos, logs[i], if i + 1 < |logs| then [logs[i + 1]] else [], ro,
                                 rest);
      if r != 0 {
        res := 1;
      }
      if i + 1 == |logs| {
        NoneLeft(disk.content, g, main, nextPos, rest[1..]);
      }
      currentPos := nextPos;
    }
    NoneLeft(disk.content, g, main, currentPos, logs[|logs|..]);
  }

  /** One record: the partition, and the link to the next one if there is one. */
  method WriteOne(disk: Disk, g: Geometry, main: nat, pos: nat, p: Part, next: seq<Part>, ro: bool,
                  ghost rest: seq<Part>)
    returns (res: int, nextPos: nat)
    requires Usable(g) && |rest| > 0 && p == rest[0] && next == rest[1..if |rest| > 1 then 2 else 1]
    modifies disk
    ensures |disk.content| == |old(disk.content)| && res in {0, 1}
    ensures (ro ==> disk.content == old(disk.content) && res == 0)
    ensures nextPos == if |rest| > 1 then Link(g, rest[0], rest[1]).offset else pos
    ensures disk.reliable && !ro && pos + RECORD <= |disk.content| ==>
              res == 0 && disk.content == Patched(old(disk.content), pos,
                                                  Record(g, main, pos, rest, old(disk.content)[pos..pos + TABLE]))
  {
    hide Record, Link, NextRecord, ToEntry, EntryBytes, RecordBytes, Patched;
    var code := ReadCode(disk, pos);
    var link := NulBytes(ENTRY_SIZE);
    nextPos := pos;
    if |next| > 0 {
      var nextExt := Link(g, p, next[0]);
      link := EntryBytes(ToEntry(g, main, nextExt));
      nextPos := nextExt.offset;
    }
    var record := RecordBytes(code, EntryBytes(ToEntry(g, pos, p)), link);
    RecordIs(g, main, pos, rest, code);
    res := Store(disk, record, pos, ro);
  }

  lemma RecordIs(g: Geometry, main: nat, pos: nat, logs: seq<Part>, code: seq<byte>)
    requires Usable(g) && |logs| > 0 && |code| == TABLE
    ensures Record(g, main, pos, logs, code)
            == RecordBytes(code, EntryBytes(ToEntry(g, pos, logs[0])),
                           if |logs| > 1 then EntryBytes(ToEntry(g, main, Link(g, logs[0], logs[1])))
                             else NulBytes(ENTRY_SIZE))
  {
    hide NextRecord, ToEntry, EntryBytes, RecordBytes;
  }

  lemma ChainParts(content: seq<byte>, g: Geometry, main: nat, pos: nat, logs: seq<Part>)
    requires Usable(g) && |logs| > 0
    ensures RecordsFit(g, main, pos, logs, |content|) ==>
              pos + RECORD <= |content|
                && (|logs| > 1 ==> RecordsFit(g, main, Link(g, logs[0], logs[1]).offset, logs[1..], |content|))
    ensures RecordsFit(g, main, pos, logs, |content|) ==>
              var c := Patched(content, pos, Record(g, main, pos, logs, content[pos..pos + TABLE]));
              ChainContent(content, g, main, pos, logs)
                == if |logs| == 1 then c else ChainContent(c, g, main, Link(g, logs[0], logs[1]).offset, logs[1..])
  {
    hide NextRecord, Record, Patched;
  }

  lemma NoneLeft(content: seq<byte>, g: Geometry, main: nat, pos: nat, logs: seq<Part>)
    requires Usable(g) && |logs| == 0
    ensures RecordsFit(g, main, pos, logs, |content|) && ChainContent(content, g, main, pos, logs) == content
  {
  }

  // ----- reading -----

  /** get_ext_partition_i386: the first extended partition, -1 when there is none. */
  function FirstExt(v: seq<Part>): (k: int)
    ensures -1 <= k < |v|
    ensures k >= 0 ==> v[k].status == Ext
    ensures forall i :: 0 <= i < (if k >= 0 then k else |v|) ==> v[i].status != Ext
  {
    if |v| == 0 then -1
    else if v[0].status == Ext then 0
    else
      var k := FirstExt(v[1..]);
      if k < 0 then -1 else k + 1
  }

  /** One entry of a record. */
  method HandleEntry(g: Geometry, probe: Part -> nat, main: nat, ext: nat, e: DosEntry, list: seq<Partition>,
                     order: nat, count: nat,
                     next: seq<nat>) returns (r: seq<Partition>, order': nat, count': nat, next': seq<nat>)
    requires Usable(g) && Distinct(list)
    modifies set y | y in list
    ensures Distinct(r)
    ensures State(View(r), order', count', next')
              == ReadEntry(g, probe, main, ext, e, State(old(View(list)), order, count, next))
    ensures forall y :: y in r ==> y in list || fresh(y)
  {
    hide Added, FromEntry, Distinct;
    r, order', count', next' := list, order, count, next;
    if e.sysInd != 0 {
      var added;
      if IsExtended(e.sysInd) {
        var x := Probed(probe, FromEntry(g, main, e, ExtInExt, order));
        r, added := AddPart(list, x);
        if added {
          next' := [x.offset];
        }
      } else {
        r, added := AddPart(list, Probed(probe, FromEntry(g, ext, e, Log, order)));
        order' := order + 1;
      }
      if added {
        count' := count + 1;
      }
    }
  }

  /** The four entries of a record. */
  method HandleRecord(g: Geometry, probe: Part -> nat, main: nat, ext: nat, sector: seq<byte>, list: seq<Partition>,
                      order: nat,
                      count: nat) returns (r: seq<Partition>, order': nat, count': nat, next: seq<nat>)
    requires Usable(g) && |sector| == RECORD && Distinct(list)
    modifies set y | y in list
    ensures Distinct(r)
    ensures State(View(r), order', count', next)
            == ReadEntries(g, probe, main, ext, sector, 0, State(old(View(list)), order, count, []))
    ensures forall y :: y in r ==> y in list || fresh(y)
  {
    hide ReadEntry, EntryAt, Distinct;
    r, order', count', next := list, order, count, [];
    for i := 0 to 4
      invariant Distinct(r) && forall y :: y in r ==> y in list || fresh(y)
      invariant ReadEntries(g, probe, main, ext, sector, i, State(View(r), order', count', next))
                == ReadEntries(g, probe, main, ext, sector, 0, State(old(View(list)), order, count, []))
    {
      r, order', count', next := HandleEntry(g, probe, main, ext, EntryAt(sector, i), r, order', count', next);
    }
  }

  /** get_ext_data_i386: on any disk it reads at most 32 records, even around a loop; on one that serves reads in range
      it finds what ReadChain says. */
  method GetExtData(disk: Disk, g: Geometry, probe: Part -> nat, list: seq<Partition>)
    returns (r: seq<Partition>, records: nat)
    requires Usable(g) && Distinct(list)
    modifies set y | y in list
    ensures records <= MAX_ADDED
    ensures disk.reliable ==>
              var v := old(View(list));
              var k := FirstExt(v);
              View(r) == if k < 0 then v
                else ReadChain(disk.content, g, probe, v[k].offset, v[k].offset, State(v, 5, 0, []))
  {
    hide ReadEntries, ReadChain, Signed, Distinct;
    records := 0;
    r := list;
    ghost var v := View(list);
    var k := FindFirstExt(list);
    if k < 0 {
      return;
    }
    var main := list[k].p.offset;
    var ext: nat, order: nat, count: nat, next: seq<nat> := main, 5, 0, [];
    var more := true;
    ghost var goal := ReadChain(disk.content, g, probe, main, main, State(v, 5, 0, []));
    while more && count < MAX_ADDED
      invariant Distinct(r) && forall y :: y in r ==> y in list || fresh(y)
      invariant records <= MAX_ADDED && (more ==> records <= count)
      invariant disk.reliable && more ==>
                  ReadChain(disk.content, g, probe, main, ext, State(View(r), order, count, next)) == goal
      invariant disk.reliable && !more ==> View(r) == goal
      decreases more, MAX_ADDED - count
    {
      ReadChainStep(disk.content, g, probe, main, ext, State(View(r), order, count, next));
      NotReadable(disk.content, g, probe, main, ext, State(View(r), order, count, next));
      if ext == 0 {
        return;
      }
      var status, sector := disk.Pread(RECORD, ext);
      records := records + 1;
      if status != RECORD {
        return;
      }
      assert sector == disk.content[ext..ext + RECORD];
      if sector[0x1FE] != 0x55 || sector[0x1FF] != 0xAA {
        assert !Signed(sector) by {
          SignedIs(sector);
        }
        return;
      }
      SignedIs(sector);
      ghost var before := State(View(r), order, count, next);
      r, order, count, next := HandleRecord(g, probe, main, ext, sector, r, order, count);
      if next == [] {
        more := false;
      } else {
        ext := next[0];
      }
    }
    if more {
      ReadChainStep(disk.content, g, probe, main, ext, State(View(r), order, count, next));
    }
  }

  lemma SignedIs(sector: seq<byte>)
    requires |sector| == RECORD
    ensures Signed(sector) <==> sector[0x1FE] == 0x55 && sector[0x1FF] == 0xAA
  {
  }

  lemma NotReadable(content: seq<byte>, g: Geometry, probe: Part -> nat, main: nat, ext: nat, s: State)
    requires Usable(g)
    ensures ext == 0 || ext + RECORD > |content| || !Signed(content[ext..ext + RECORD]) ==>
              ReadChain(content, g, probe, main, ext, s) == s.list
  {
  }

  method FindFirstExt(list: seq<Partition>) returns (k: int)
    ensures k == FirstExt(View(list))
  {
    for i := 0 to |list|
      invariant forall j :: 0 <= j < i ==> list[j].p.status != Ext
    {
      if list[i].p.status == Ext {
        return i;
      }
    }
    k := -1;
  }
}
