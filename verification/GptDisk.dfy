/** Writing and reading a GPT: src/disk/partgptw.c:82-113 and 208-298, src/disk/partgpt.c:169-320. */
module GptDisk {
  import opened Arith
  import opened Disks
  import opened Partitions
  import opened Unicode
  import opened GptStructure
  import opened Gpt

  /** 64-bit arithmetic. */
  function Wrapped(x: int): nat {
    x % WORD64
  }

  // ----- the table of a list of partitions -----

  const BLANK_ENTRY: Entry := Entry(UNUSED, UNUSED, 0, 0, 0, seq(NAME_UNITS, _ => 0))

  /** The first used entry that starts there, |org| when there is none. */
  function FirstStarting(org: seq<Entry>, lba: nat): (k: nat)
    ensures k <= |org|
    ensures k < |org| ==> org[k].lbaStart == lba && org[k].uuid != UNUSED
    ensures forall i :: 0 <= i < k ==> !(org[i].lbaStart == lba && org[i].uuid != UNUSED)
  {
    if |org| == 0 || (org[0].lbaStart == lba && org[0].uuid != UNUSED) then 0 else 1 + FirstStarting(org[1..], lba)
  }

  /** What find_gpt_entry returns: that entry, unless an earlier one already has its UUID. */
  ghost function FoundEntry(org: seq<Entry>, lba: nat): (r: int)
    ensures -1 <= r < |org|
    ensures forall k: nat :: r == k <==>
              && k < |org| && org[k].lbaStart == lba && org[k].uuid != UNUSED
              && forall j :: 0 <= j < k ==>
                   org[j].uuid != org[k].uuid && (org[j].lbaStart != lba || org[j].uuid == UNUSED)
  {
    var k := FirstStarting(org, lba);
    if k < |org| && forall j :: 0 <= j < k ==> org[j].uuid != org[k].uuid then k else -1
  }

  method FindGptEntry(org: seq<Entry>, lba: nat) returns (r: int)
    ensures r == FoundEntry(org, lba)
    ensures -1 <= r < |org|
    ensures forall k: nat :: r == k <==>
              && k < |org| && org[k].lbaStart == lba && org[k].uuid != UNUSED
              && forall j :: 0 <= j < k ==>
                   org[j].uuid != org[k].uuid && (org[j].lbaStart != lba || org[j].uuid == UNUSED)
  {
    for i := 0 to |org|
      invariant forall k :: 0 <= k < i ==> !(org[k].lbaStart == lba && org[k].uuid != UNUSED)
    {
      if org[i].lbaStart == lba && org[i].uuid != UNUSED {
        assert i == FirstStarting(org, lba);
        for j := 0 to i
          invariant forall k :: 0 <= k < j ==> org[k].uuid != org[i].uuid
        {
          if org[j].uuid == org[i].uuid {
            return -1;
          }
        }
        return i;
      }
    }
    r := -1;
  }

  /** Where the UUIDs come from: the entries that were on the disk, and a generator. */
  datatype Uuids = Uuids(org: seq<Entry>, generated: Part -> seq<byte>)

  ghost function ChosenUuid(u: Uuids, p: Part, lba: nat): seq<byte> {
    var k := FoundEntry(u.org, lba);
    if k >= 0 then u.org[k].uuid else if p.uuid != UNUSED then p.uuid else u.generated(p)
  }

  /** partition_generate_gpt_entry */
  ghost function Generated(slot: Entry, p: Part, ss: nat, u: Uuids): Entry
    requires ss > 0
  {
    Entry(p.typeGpt, ChosenUuid(u, p, Quotient(p.offset, ss)), Quotient(p.offset, ss),
          Quotient(Wrapped(p.offset + p.size - 1), ss), 0,
          Encoded(slot.name, p.name))
  }

  ghost function Filled(table: seq<Entry>, v: seq<Part>, ss: nat, u: Uuids): (r: seq<Entry>)
    requires ss > 0
    ensures |r| == |table|
    decreases |v|
  {
    if |v| == 0 then table
    else
      var before := Filled(table, v[..|v| - 1], ss, u);
      var p := v[|v| - 1];
      if 0 < p.order <= |table| then before[p.order - 1 := Generated(before[p.order - 1], p, ss, u)] else before
  }

  ghost function TableOf(v: seq<Part>, ss: nat, u: Uuids): (r: seq<Entry>)
    requires ss > 0
    ensures |r| == ENTRY_COUNT
  {
    Filled(seq(ENTRY_COUNT, _ => BLANK_ENTRY), v, ss, u)
  }

  // ----- headers -----

  /** The header before its own checksum is filled in, in 64-bit arithmetic. */
  function Draft(ss: nat, diskSize: nat, guid: seq<byte>, crcTable: nat, backup: bool): Header
    requires ss > 0 && diskSize > 0
  {
    var last := Quotient(diskSize - 1, ss);
    var tail := Quotient(Wrapped(diskSize - 1 - TABLE_SIZE), ss);
    Header(REVISION, HEADER_SIZE, 0, 0, if backup then last else 1, if backup then 1 else last,
           1 + Quotient(TABLE_SIZE, ss) + 1, Wrapped(tail - 1), guid, if backup then tail else 2, ENTRY_COUNT,
             ENTRY_SIZE, crcTable)
  }

  function Sealed(h: Header): Header {
    h.(crcSelf := Checksum(HeaderBytes(h.(crcSelf := 0))))
  }

  const MIN_SECTOR: nat := 512

  /** A header sector. */
  function HeaderSector(h: Header, ss: nat): seq<byte>
    requires MIN_SECTOR <= ss
  {
    HeaderBytes(h) + NulBytes(ss - HEADER_SIZE)
  }

  // ----- reading -----

  /** The header with its checksum field zeroed, as far as it is summed. */
  function Summed(sector: seq<byte>, size: nat): seq<byte>
    requires 20 <= size <= |sector|
  {
    Patched(sector, 16, [0, 0, 0, 0])[..size]
  }

  /** The checks of read_part_gpt_aux on a header. */
  predicate HeaderOk(sector: seq<byte>, lba: nat)
    requires MIN_SECTOR <= |sector|
  {
    var ss := |sector|;
    var h := HeaderOf(sector);
    && sector[..8] == SIGNATURE
    && HEADER_SIZE <= h.size <= ss
    && Checksum(Summed(sector, h.size)) == h.crcSelf
    && h.lbaSelf == lba
    && h.lbaStart < h.lbaEnd
    && 0 < h.entries <= 4096
    && h.entrySize % 8 == 0 && ENTRY_SIZE <= h.entrySize <= 4096
    && h.entries * h.entrySize >= TABLE_SIZE
    && (lba == 1 ==> h.lbaSelf + h.size - 1 < TableOffset(h, ss) < Wrapped(h.lbaStart * ss))
  }

  function TableOffset(h: Header, ss: nat): nat {
    MulNonNeg(h.lbaTable, ss);
    Wrapped(h.lbaTable * ss)
  }

  /** The partition an entry stands for, after the filesystem probe. */
  function PartOf(e: Entry, ss: nat, order: nat, probe: Part -> nat): Part
    requires e.lbaStart < e.lbaEnd
  {
    MulNonNeg(e.lbaStart, ss);
    MulNonNeg(e.lbaEnd - e.lbaStart + 1, ss);
    Probed(probe, BLANK.(offset := Wrapped(e.lbaStart * ss), size := Wrapped((e.lbaEnd - e.lbaStart + 1) * ss),
                         typeGpt := e.typeGuid, uuid := e.uuid, name := Decoded(e.name), status := Prim,
                           order := order))
  }

  /** An entry that is listed: those of one sector are not. */
  predicate Listed(e: Entry) {
    e.typeGuid != UNUSED && e.lbaStart < e.lbaEnd
  }

  /** The list after the entries from the i-th on. */
  function ReadEntries(es: seq<Entry>, i: nat, ss: nat, probe: Part -> nat, list: seq<Part>): seq<Part>
    requires i <= |es|
    decreases |es| - i
  {
    if i == |es| then list
    else ReadEntries(es, i + 1, ss, probe, if Listed(es[i]) then Added(list, PartOf(es[i], ss, i + 1, probe)).0
                     else list)
  }

  function EntriesIn(table: seq<byte>, count: nat, size: nat): (es: seq<Entry>)
    requires size >= ENTRY_SIZE && count * size <= |table|
    ensures |es| == count
  {
    EntriesInBounds(count, size);
    seq(count, i requires 0 <= i < count => (EntriesInBounds(count, size); EntryAt(table, i, size)))
  }

  lemma EntriesInBounds(count: nat, size: nat)
    requires size >= ENTRY_SIZE
    ensures forall i :: 0 <= i < count ==> i * size + ENTRY_SIZE <= count * size
  {
    forall i | 0 <= i < count
      ensures i * size + ENTRY_SIZE <= count * size
    {
      assert count * size == i * size + (count - i) * size;
      MulAtLeast(count - i, size);
    }
  }

  /** read_part_gpt_aux on a disk that serves reads in range; empty for NULL. */
  function ReadAt(content: seq<byte>, ss: nat, lba: nat, probe: Part -> nat): seq<Part>
    requires MIN_SECTOR <= ss
  {
    MulNonNeg(lba, ss);
    if lba * ss + ss > |content| then []
    else
      var sector := content[lba * ss..lba * ss + ss];
      if !HeaderOk(sector, lba) then []
      else
        var h := HeaderOf(sector);
        var size, offset := h.entries * h.entrySize, TableOffset(h, ss);
        MulNonNeg(h.entries, h.entrySize);
        if offset + size > |content| || Checksum(content[offset..offset + size]) != h.crcTable then []
        else ReadEntries(EntriesIn(content[offset..offset + size], h.entries, h.entrySize), 0, ss, probe, [])
  }

  /** read_part_gpt: the primary table, else the backup. */
  function ReadGpt(content: seq<byte>, ss: nat, probe: Part -> nat): seq<Part>
    requires MIN_SECTOR <= ss && |content| > 0
  {
    var primary := ReadAt(content, ss, 1, probe);
    if primary != [] then primary else ReadAt(content, ss, Quotient(|content| - 1, ss), probe)
  }

  // ----- the layout -----

  /** A sector size that divides the table, and a disk of whole sectors with room between the two tables. */
  ghost predicate Roomy(ss: nat, diskSize: nat) {
    && MIN_SECTOR <= ss && TABLE_SIZE % ss == 0 && diskSize % ss == 0 && diskSize < WORD64
    && 2 * TABLE_SIZE + 5 * ss <= diskSize
  }

  /** The regions, in bytes: protective MBR, primary header, primary table, usable range, backup table, backup header.
      They follow each other without gap or overlap, from the start to the end of the disk. */
  lemma RegionsTile(ss: nat, diskSize: nat, guid: seq<byte>, crc: nat)
    requires Roomy(ss, diskSize)
    ensures var p, b := Draft(ss, diskSize, guid, crc, false), Draft(ss, diskSize, guid, crc, true);
            && p.lbaSelf * ss == ss
            && p.lbaTable * ss == p.lbaSelf * ss + ss
            && p.lbaStart * ss == p.lbaTable * ss + TABLE_SIZE
            && p.lbaStart < p.lbaEnd && (p.lbaEnd + 1) * ss == b.lbaTable * ss
            && b.lbaSelf * ss == b.lbaTable * ss + TABLE_SIZE
            && b.lbaSelf * ss + ss == diskSize
            && b.lbaStart == p.lbaStart && b.lbaEnd == p.lbaEnd && b.lbaAlt == p.lbaSelf && p.lbaAlt == b.lbaSelf
    ensures var b := Draft(ss, diskSize, guid, crc, true);
            b.lbaTable > 2 && b.lbaSelf > b.lbaTable
  {
    hide Quotient, Wrapped;
    var n, k := SectorCounts(ss, diskSize);
    Distribute(2, k, ss);
    Distribute(n - 1 - k, k, ss);
    Distribute(n - 1, 1, ss);
  }

  /** The disk and the table, counted in sectors. */
  lemma SectorCounts(ss: nat, diskSize: nat) returns (n: nat, k: nat)
    requires Roomy(ss, diskSize)
    ensures diskSize == n * ss && TABLE_SIZE == k * ss && n >= 2 * k + 5 && k > 0
    ensures Quotient(diskSize - 1, ss) == n - 1 && Quotient(TABLE_SIZE, ss) == k
    ensures Quotient(Wrapped(diskSize - 1 - TABLE_SIZE), ss) == n - 1 - k && Wrapped(n - 1 - k - 1) == n - 1 - k - 1
  {
    n, k := diskSize / ss, TABLE_SIZE / ss;
    WholeMultiple(diskSize, ss);
    WholeMultiple(TABLE_SIZE, ss);
    LastSector(diskSize, n, ss);
    Distribute(n - k, k, ss);
    Distribute(k, k, ss);
    Distribute(2 * k, 5, ss);
    SectorsApart(2 * k + 5, n, ss);
    SectorsApart(1, k, ss);
    LastSector(diskSize - TABLE_SIZE, n - k, ss);
    SectorsBounded(n, ss);
    SmallWrap(diskSize - 1 - TABLE_SIZE);
    SmallWrap(n - 1 - k - 1);
  }

  lemma SmallWrap(x: nat)
    requires x < WORD64
    ensures Wrapped(x) == x
  {
  }

  /** The sector of the last byte. */
  lemma LastSector(size: nat, n: nat, ss: nat)
    requires ss > 0 && size == n * ss && size > 0
    ensures Quotient(size - 1, ss) == n - 1
  {
    Distribute(n - 1, 1, ss);
    DivModUnique(size - 1, n - 1, ss, ss - 1);
  }

  lemma SectorsBounded(n: nat, ss: nat)
    requires ss > 0 && n * ss <= WORD64
    ensures n <= WORD64
  {
    assert n * ss == n + n * (ss - 1);
    MulNonNeg(n, ss - 1);
  }

  lemma SectorsApart(a: nat, n: nat, ss: nat)
    requires ss > 0 && a * ss <= n * ss
    ensures a <= n
  {
    Distribute(n, a - n, ss);
    MulAtLeast(a - n, ss);
  }
}

/** What is written is read back. */
module GptRoundTrip {
  import opened Arith
  import opened Disks
  import opened LittleEndian
  import opened Partitions
  import opened Unicode
  import opened GptStructure
  import opened Gpt
  import opened GptDisk

  // ----- the partitions that can be written -----

  /** Whole sectors, at least two of them, inside the disk; a slot of its own; an ASCII name that fits. */
  ghost predicate GoodPart(ss: nat, diskSize: nat, p: Part)
    requires ss > 0
  {
    && p.offset % ss == 0 && p.size % ss == 0 && 2 * ss <= p.size && p.End() <= diskSize < WORD64
    && 1 <= p.order <= ENTRY_COUNT && p.typeGpt != UNUSED && |p.typeGpt| == GUID_SIZE && |p.uuid| == GUID_SIZE
    && 0 !in p.name && |p.name| <= NAME_UNITS && forall i :: 0 <= i < |p.name| ==> p.name[i] < 128
  }

  /** In the order of the disk, without overlap, each with its own number. */
  ghost predicate GoodList(ss: nat, diskSize: nat, v: seq<Part>)
    requires ss > 0
  {
    && (forall i :: 0 <= i < |v| ==> GoodPart(ss, diskSize, v[i]))
    && (forall i, j :: 0 <= i < j < |v| ==> v[i].End() <= v[j].offset && v[i].order != v[j].order)
  }

  /** Lists like this exist: two partitions, numbered against their order on the disk. */
  lemma SomeGoodList() returns (v: seq<Part>)
    ensures Roomy(512, 0x100_0000) && GoodList(512, 0x100_0000, v) && |v| == 2
  {
    var p := BLANK.(size := 0x10_0000, typeGpt := UNUSED[0 := 1], uuid := UNUSED, name := [72, 105]);
    v := [p.(offset := 0x10_0000, order := 7), p.(offset := 0x20_0000, order := 3)];
    assert p.typeGpt[0] != UNUSED[0];
  }

  ghost predicate GoodUuids(u: Uuids) {
    && (forall k :: 0 <= k < |u.org| ==> |u.org[k].uuid| == GUID_SIZE)
    && forall p :: |u.generated(p)| == GUID_SIZE
  }

  /** What a partition is read as. */
  ghost function Reread(p: Part, ss: nat, u: Uuids, probe: Part -> nat): Part
    requires ss > 0
  {
    Probed(probe, BLANK.(offset := p.offset, size := p.size, typeGpt := p.typeGpt,
                         uuid := ChosenUuid(u, p, Quotient(p.offset, ss)),
                         name := p.name, status := Prim, order := p.order))
  }

  ghost function RereadAll(v: seq<Part>, ss: nat, u: Uuids, probe: Part -> nat): (t: seq<Part>)
    requires ss > 0
    ensures |t| == |v| && forall i :: 0 <= i < |v| ==> t[i] == Reread(v[i], ss, u, probe)
  {
    seq(|v|, i requires 0 <= i < |v| => Reread(v[i], ss, u, probe))
  }

  // ----- one entry -----

  /** The entry of a partition is listed, and stands for it. */
  lemma GeneratedReads(slot: Entry, p: Part, ss: nat, diskSize: nat, u: Uuids, probe: Part -> nat)
    requires ss > 0 && GoodPart(ss, diskSize, p) && GoodUuids(u) && |slot.name| == NAME_UNITS
    requires forall i :: 0 <= i < NAME_UNITS ==> slot.name[i] < Limit(2)
    ensures var e := Generated(slot, p, ss, u);
            FitsEntry(e) && Listed(e) && PartOf(e, ss, p.order, probe) == Reread(p, ss, u, probe)
  {
    hide ChosenUuid, Decoded, Encoded, Quotient, Wrapped, Limit;
    EntryLbas(p, ss, diskSize);
    NameRoundTrip(slot.name, p.name);
    Limits();
    UuidSize(u, p, Quotient(p.offset, ss));
    UnitsFit(slot.name, p.name);
  }

  /** The reader drops partitions of one sector, and no other aligned ones. */
  lemma ListedIffTwoSectors(slot: Entry, p: Part, ss: nat, u: Uuids)
    requires ss > 0 && p.offset % ss == 0 && p.size % ss == 0 && p.size > 0 && p.End() < WORD64 && p.typeGpt != UNUSED
    ensures Listed(Generated(slot, p, ss, u)) <==> p.size >= 2 * ss
  {
    hide ChosenUuid, Encoded;
    var a, n := Quotient(p.offset, ss), Quotient(p.size, ss);
    WholeMultiple(p.offset, ss);
    WholeMultiple(p.size, ss);
    Distribute(a, n, ss);
    LastSector(p.End(), a + n, ss);
    SmallWrap(p.End() - 1);
    var d: int := n as int - 2;
    Distribute(d, 2, ss);
    MulAtLeast(d, ss);
  }

  lemma UuidSize(u: Uuids, p: Part, lba: nat)
    requires GoodUuids(u) && |p.uuid| == GUID_SIZE
    ensures |ChosenUuid(u, p, lba)| == GUID_SIZE
  {
  }

  lemma UnitsFit(field: seq<nat>, name: seq<byte>)
    requires forall i :: 0 <= i < |field| ==> field[i] < Limit(2)
    ensures forall i :: 0 <= i < |field| ==> Encoded(field, name)[i] < Limit(2)
  {
    Limits();
  }

  /** First and last sector. */
  lemma EntryLbas(p: Part, ss: nat, diskSize: nat)
    requires ss > 0 && GoodPart(ss, diskSize, p)
    ensures var a, b := Quotient(p.offset, ss), Quotient(Wrapped(p.offset + p.size - 1), ss);
            && a < b < Limit(8) && Wrapped(a * ss) == p.offset && Wrapped((b - a + 1) * ss) == p.size
  {
    hide Limit;
    Limits();
    var a, n := Quotient(p.offset, ss), Quotient(p.size, ss);
    WholeMultiple(p.offset, ss);
    WholeMultiple(p.size, ss);
    Distribute(a, n, ss);
    LastSector(p.End(), a + n, ss);
    SmallWrap(p.End() - 1);
    SectorsApart(2, n, ss);
    SmallWrap(p.offset);
    SmallWrap(p.size);
    SectorsBounded(a + n, ss);
  }

  // ----- the table -----

  lemma {:induction false} FilledOther(table: seq<Entry>, v: seq<Part>, ss: nat, u: Uuids, k: nat)
    requires ss > 0 && k < |table| && forall j :: 0 <= j < |v| ==> v[j].order != k + 1
    ensures Filled(table, v, ss, u)[k] == table[k]
    decreases |v|
  {
    hide Generated;
    if |v| > 0 {
      FilledOther(table, v[..|v| - 1], ss, u, k);
    }
  }

  lemma {:induction false} FilledAt(table: seq<Entry>, v: seq<Part>, ss: nat, u: Uuids, j: nat)
    requires ss > 0 && j < |v| && 1 <= v[j].order <= |table|
    requires forall i :: 0 <= i < |v| && i != j ==> v[i].order != v[j].order
    ensures Filled(table, v, ss, u)[v[j].order - 1] == Generated(table[v[j].order - 1], v[j], ss, u)
    decreases |v|
  {
    hide Generated;
    var init := v[..|v| - 1];
    if j == |v| - 1 {
      FilledOther(table, init, ss, u, v[j].order - 1);
    } else {
      FilledAt(table, init, ss, u, j);
    }
  }

  lemma BlankFits()
    ensures FitsEntry(BLANK_ENTRY) && !Listed(BLANK_ENTRY) && |BLANK_ENTRY.name| == NAME_UNITS
    ensures forall i :: 0 <= i < NAME_UNITS ==> BLANK_ENTRY.name[i] < Limit(2)
  {
    Limits();
  }

  /** Slot k of the table: the partition with number k + 1, or nothing. */
  lemma TableSlot(v: seq<Part>, ss: nat, diskSize: nat, u: Uuids, probe: Part -> nat, k: nat)
    requires ss > 0 && GoodList(ss, diskSize, v) && GoodUuids(u) && k < ENTRY_COUNT
    ensures var e := TableOf(v, ss, u)[k];
            && FitsEntry(e)
            && (Listed(e) <==> exists j :: 0 <= j < |v| && v[j].order == k + 1)
            && forall j :: 0 <= j < |v| && v[j].order == k + 1 ==>
                PartOf(e, ss, k + 1, probe) == Reread(v[j], ss, u, probe)
  {
    hide Generated, FitsEntry, Listed, PartOf, Reread, GoodPart;
    var blank := seq(ENTRY_COUNT, _ => BLANK_ENTRY);
    BlankFits();
    if j :| 0 <= j < |v| && v[j].order == k + 1 {
      FilledAt(blank, v, ss, u, j);
      GeneratedReads(BLANK_ENTRY, v[j], ss, diskSize, u, probe);
    } else {
      FilledOther(blank, v, ss, u, k);
    }
  }

  // ----- reading the entries in slot order gives the list in disk order -----

  /** The partitions of t with numbers up to n. */
  function Upto(t: seq<Part>, n: nat): seq<Part>
    decreases |t|
  {
    if |t| == 0 then [] else Upto(t[..|t| - 1], n) + if t[|t| - 1].order <= n then [t[|t| - 1]] else []
  }

  lemma {:induction false} UptoIn(t: seq<Part>, n: nat)
    ensures forall y :: y in Upto(t, n) ==> y in t
    decreases |t|
  {
    if |t| > 0 {
      UptoIn(t[..|t| - 1], n);
    }
  }

  lemma {:induction false} UptoConcat(a: seq<Part>, b: seq<Part>, n: nat)
    ensures Upto(a + b, n) == Upto(a, n) + Upto(b, n)
    decreases |b|
  {
    if |b| == 0 {
      assert a + b == a;
    } else {
      assert (a + b)[..|a + b| - 1] == a + b[..|b| - 1];
      UptoConcat(a, b[..|b| - 1], n);
    }
  }

  lemma {:induction false} UptoSame(t: seq<Part>, n: nat)
    requires forall i :: 0 <= i < |t| ==> t[i].order != n + 1
    ensures Upto(t, n + 1) == Upto(t, n)
    decreases |t|
  {
    if |t| > 0 {
      UptoSame(t[..|t| - 1], n);
    }
  }

  lemma {:induction false} UptoAll(t: seq<Part>, n: nat)
    requires forall i :: 0 <= i < |t| ==> t[i].order <= n
    ensures Upto(t, n) == t
    decreases |t|
  {
    if |t| > 0 {
      var init := t[..|t| - 1];
      assert forall i :: 0 <= i < |init| ==> init[i] == t[i];
      UptoAll(init, n);
      assert t == init + [t[|t| - 1]];
    }
  }

  lemma {:induction false} UptoNone(t: seq<Part>)
    requires forall i :: 0 <= i < |t| ==> t[i].order > 0
    ensures Upto(t, 0) == []
    decreases |t|
  {
    if |t| > 0 {
      UptoNone(t[..|t| - 1]);
    }
  }

  ghost predicate Spread(t: seq<Part>) {
    forall i, j :: 0 <= i < j < |t| ==> t[i].offset < t[j].offset && t[i].order != t[j].order
  }

  /** The next number goes where the disk order wants it. */
  lemma AddedUpto(t: seq<Part>, j: nat)
    requires Spread(t) && j < |t| && t[j].order > 0
    ensures Added(Upto(t, t[j].order - 1), t[j]) == (Upto(t, t[j].order), true)
  {
    hide Upto, Added, Spread;
    var a, b, n := t[..j], t[j + 1..], t[j].order - 1;
    UptoSplit(t, j);
    SpreadAround(t, j);
    var fa, fb := Upto(a, n), Upto(b, n);
    UptoIn(a, n);
    UptoIn(b, n);
    assert forall i :: 0 <= i < |fa| ==> fa[i] in fa;
    assert forall i :: 0 <= i < |fb| ==> fb[i] in fb;
    PositionBetween(fa, fb, t[j]);
  }

  lemma SpreadAround(t: seq<Part>, j: nat)
    requires Spread(t) && j < |t|
    ensures forall y :: y in t[..j] ==> y.offset < t[j].offset && y.order != t[j].order
    ensures forall y :: y in t[j + 1..] ==> y.offset > t[j].offset && y.order != t[j].order
  {
  }

  lemma UptoSplit(t: seq<Part>, j: nat)
    requires Spread(t) && j < |t| && t[j].order > 0
    ensures var a, b, n := t[..j], t[j + 1..], t[j].order - 1;
            Upto(t, n) == Upto(a, n) + Upto(b, n) && Upto(t, n + 1) == Upto(a, n) + [t[j]] + Upto(b, n)
  {
    hide Upto, Spread;
    var a, x, b, n := t[..j], t[j], t[j + 1..], t[j].order - 1;
    SpreadAround(t, j);
    assert t == a + [x] + b;
    UptoConcat(a + [x], b, n);
    UptoConcat(a, [x], n);
    UptoConcat(a + [x], b, n + 1);
    UptoConcat(a, [x], n + 1);
    UptoSame(a, n);
    UptoSame(b, n);
    UptoOne(x, n);
  }

  lemma UptoOne(x: Part, n: nat)
    requires x.order == n + 1
    ensures Upto([x], n) == [] && Upto([x], n + 1) == [x]
  {
    assert Upto([x][..0], n) == [] && Upto([x][..0], n + 1) == [];
  }

  lemma PositionBetween(a: seq<Part>, b: seq<Part>, x: Part)
    requires forall i :: 0 <= i < |a| ==> a[i].offset < x.offset
    requires forall i :: 0 <= i < |b| ==> b[i].offset > x.offset
    ensures Added(a + b, x) == (a + [x] + b, true)
  {
    var v := a + b;
    var k := Position(v, x, false);
    assert forall i :: 0 <= i < |a| ==> v[i] == a[i] && !Before(x, v[i], false);
    assert |b| > 0 ==> v[|a|] == b[0] && Before(x, v[|a|], false);
    assert v[..|a|] == a && v[|a|..] == b;
  }

  /** Slot by slot. */
  lemma {:induction false} EntriesReadBack(v: seq<Part>, ss: nat, diskSize: nat, u: Uuids, probe: Part -> nat, i: nat)
    requires ss > 0 && GoodList(ss, diskSize, v) && GoodUuids(u) && i <= ENTRY_COUNT
    ensures var t := RereadAll(v, ss, u, probe);
            ReadEntries(TableOf(v, ss, u), i, ss, probe, Upto(t, i)) == t
    decreases ENTRY_COUNT - i
  {
    hide TableOf, PartOf, Reread, GoodPart, Listed, Added, Upto, GoodUuids;
    var t := RereadAll(v, ss, u, probe);
    RereadFields(v, ss, diskSize, u, probe);
    if i == ENTRY_COUNT {
      UptoAll(t, ENTRY_COUNT);
    } else {
      TableSlot(v, ss, diskSize, u, probe, i);
      if j :| 0 <= j < |v| && v[j].order == i + 1 {
        AddedUpto(t, j);
      } else {
        UptoSame(t, i);
      }
      EntriesReadBack(v, ss, diskSize, u, probe, i + 1);
    }
  }

  lemma RereadFields(v: seq<Part>, ss: nat, diskSize: nat, u: Uuids, probe: Part -> nat)
    requires ss > 0 && GoodList(ss, diskSize, v)
    ensures var t := RereadAll(v, ss, u, probe);
            Spread(t) && forall i :: 0 <= i < |t| ==> t[i].order == v[i].order && 1 <= t[i].order <= ENTRY_COUNT
  {
    hide ChosenUuid;
    var t := RereadAll(v, ss, u, probe);
    forall i | 0 <= i < |t|
      ensures t[i].order == v[i].order && t[i].offset == v[i].offset && 1 <= t[i].order <= ENTRY_COUNT && v[i].size > 0
    {
      assert GoodPart(ss, diskSize, v[i]);
    }
  }

  // ----- headers and tables on the disk -----

  lemma PatchedFour(a: seq<byte>, b: seq<byte>, c: seq<byte>, z: seq<byte>)
    requires |a| == 16 && |b| == 4 && |z| == 4
    ensures Patched(a + b + c, 16, z) == a + z + c
  {
  }

  /** Zeroing the checksum field of a header. */
  lemma SummedHeader(h: Header, rest: seq<byte>)
    requires FitsHeader(h)
    ensures |HeaderBytes(h) + rest| >= HEADER_SIZE
    ensures Summed(HeaderBytes(h) + rest, HEADER_SIZE) == HeaderBytes(h.(crcSelf := 0))
  {
    hide Pack, Limit, Le;
    HeaderRoundTrip(h, rest);
    var z := h.(crcSelf := 0);
    HeaderSplit(h);
    HeaderSplit(z);
    ZeroWord();
    var front, back := HeaderFront(h), HeaderBack(h);
    assert HeaderFront(z) == front && HeaderBack(z) == back;
    PatchedFour(front, Le(4, h.crcSelf), back + rest, Le(4, 0));
    assert HeaderBytes(h) + rest == front + Le(4, h.crcSelf) + (back + rest);
    assert front + Le(4, 0) + (back + rest) == HeaderBytes(z) + rest;
    HeaderRoundTripSize(z);
  }

  lemma ZeroWord()
    ensures Le(4, 0) == [0, 0, 0, 0]
  {
    assert Le(2, 0) == [0, 0];
  }

  lemma HeaderRoundTripSize(h: Header)
    requires |h.guid| == GUID_SIZE
    ensures |HeaderBytes(h)| == HEADER_SIZE
  {
    hide Pack;
    HeaderSplit(h);
  }

  function HeaderFront(h: Header): seq<byte> {
    SIGNATURE + Le(4, h.revision) + Le(4, h.size)
  }

  function HeaderBack(h: Header): seq<byte> {
    Le(4, h.reserved) + Le(8, h.lbaSelf) + Le(8, h.lbaAlt) + Le(8, h.lbaStart) + Le(8, h.lbaEnd) + h.guid
      + (Le(8, h.lbaTable) + Le(4, h.entries) + Le(4, h.entrySize) + Le(4, h.crcTable))
  }

  lemma HeaderSplit(h: Header)
    ensures HeaderBytes(h) == HeaderFront(h) + Le(4, h.crcSelf) + HeaderBack(h)
    ensures |HeaderFront(h)| == 16 && (|h.guid| == GUID_SIZE ==> |HeaderBack(h)| == 72)
  {
    hide Le;
    PackEight(FieldsBefore(h));
    PackedFour(FieldsAfter(h));
  }

  lemma PackedFour(fs: seq<Field>)
    requires |fs| == 4
    ensures Pack(fs) == Le(fs[0].width, fs[0].value) + Le(fs[1].width, fs[1].value) + Le(fs[2].width, fs[2].value)
              + Le(fs[3].width, fs[3].value)
  {
    hide Le, Pack;
    var a, b := Le(fs[0].width, fs[0].value), Le(fs[1].width, fs[1].value);
    var c, d := Le(fs[2].width, fs[2].value), Le(fs[3].width, fs[3].value);
    PackStep(fs[4..]);
    PackTail(fs, 3);
    PackTail(fs, 2);
    PackTail(fs, 1);
    PackTail(fs, 0);
    assert fs[0..] == fs;
    FourTogether(a, b, c, d);
  }

  lemma PackTail(fs: seq<Field>, k: nat)
    requires k < |fs|
    ensures Pack(fs[k..]) == Le(fs[k].width, fs[k].value) + Pack(fs[k + 1..])
  {
    hide Le;
    assert fs[k..][1..] == fs[k + 1..];
  }

  lemma FourTogether(a: seq<byte>, b: seq<byte>, c: seq<byte>, d: seq<byte>)
    ensures a + (b + (c + (d + []))) == a + b + c + d
  {
    assert d + [] == d;
    Split(b, c, d);
    Split(a, b, c + d);
    Split(a + b, c, d);
  }

  lemma PackStep(fs: seq<Field>)
    ensures Pack(fs) == if |fs| == 0 then [] else Le(fs[0].width, fs[0].value) + Pack(fs[1..])
  {
  }

  lemma PackEight(fs: seq<Field>)
    requires |fs| == 8
    ensures Pack(fs) == Le(fs[0].width, fs[0].value) + Le(fs[1].width, fs[1].value) + Le(fs[2].width, fs[2].value)
              + Le(fs[3].width, fs[3].value)
                        + Le(fs[4].width, fs[4].value) + Le(fs[5].width, fs[5].value) + Le(fs[6].width, fs[6].value)
                          + Le(fs[7].width, fs[7].value)
  {
    hide Le, Pack;
    PackedFour(fs[..4]);
    PackedFour(fs[4..]);
    PackConcat(fs[..4], fs[4..]);
    assert fs[..4] + fs[4..] == fs;
  }

  // ----- whole disks -----

  /** One of the two headers for a table. */
  function HeaderFor(ss: nat, diskSize: nat, guid: seq<byte>, table: seq<byte>, backup: bool): Header
    requires ss > 0 && diskSize > 0
  {
    Sealed(Draft(ss, diskSize, guid, Checksum(table), backup))
  }

  /** A header and its table are where they belong. */
  ghost predicate OnDisk(content: seq<byte>, ss: nat, h: Header, table: seq<byte>)
    requires MIN_SECTOR <= ss
  {
    && 0 <= h.lbaSelf * ss <= h.lbaSelf * ss + ss <= |content| && |HeaderBytes(h)| == HEADER_SIZE
    && content[h.lbaSelf * ss..h.lbaSelf * ss + ss] == HeaderSector(h, ss)
    && 0 <= h.lbaTable * ss <= h.lbaTable * ss + |table| <= |content|
    && content[h.lbaTable * ss..h.lbaTable * ss + |table|] == table
  }

  lemma DraftFits(ss: nat, diskSize: nat, guid: seq<byte>, crc: nat, backup: bool)
    requires Roomy(ss, diskSize) && |guid| == GUID_SIZE && crc < 0x1_0000_0000
    ensures var h := Draft(ss, diskSize, guid, crc, backup); FitsHeader(h) && FitsHeader(Sealed(h))
  {
    hide Limit, Checksum, HeaderBytes, Quotient;
    Limits();
    var n, k := SectorCounts(ss, diskSize);
    SectorsBounded(n, ss);
    SectorsBounded(n - 1, ss);
  }

  /** A written header passes every check. */
  lemma HeaderAccepted(ss: nat, diskSize: nat, guid: seq<byte>, table: seq<byte>, backup: bool)
    requires Roomy(ss, diskSize) && |guid| == GUID_SIZE
    ensures var h := HeaderFor(ss, diskSize, guid, table, backup);
            && FitsHeader(h) && |HeaderBytes(h)| == HEADER_SIZE
            && |HeaderSector(h, ss)| == ss && HeaderOf(HeaderSector(h, ss)) == h
            && HeaderOk(HeaderSector(h, ss), h.lbaSelf)
            && TableOffset(h, ss) == h.lbaTable * ss
  {
    hide Limit, Checksum, HeaderBytes, HeaderOf, Quotient, Wrapped, Summed;
    var d := Draft(ss, diskSize, guid, Checksum(table), backup);
    var h := Sealed(d);
    DraftFits(ss, diskSize, guid, Checksum(table), backup);
    HeaderRoundTrip(h, NulBytes(ss - HEADER_SIZE));
    SummedHeader(h, NulBytes(ss - HEADER_SIZE));
    RegionsTile(ss, diskSize, guid, Checksum(table));
    assert d.crcSelf == 0 && h.(crcSelf := 0) == d.(crcSelf := 0);
    SmallWrap(h.lbaTable * ss);
    SmallWrap(h.lbaStart * ss);
  }

  /** The table of a good list. */
  lemma TableIsGood(v: seq<Part>, ss: nat, diskSize: nat, u: Uuids)
    requires ss > 0 && GoodList(ss, diskSize, v) && GoodUuids(u)
    ensures var es := TableOf(v, ss, u);
            && |TableBytes(es)| == TABLE_SIZE && EntriesIn(TableBytes(es), ENTRY_COUNT, ENTRY_SIZE) == es
  {
    hide TableOf, EntryAt, TableBytes, FitsEntry, GoodList, GoodUuids;
    var es := TableOf(v, ss, u);
    forall k | 0 <= k < |es|
      ensures FitsEntry(es[k])
    {
      TableSlot(v, ss, diskSize, u, p => 0, k);
    }
    TableRoundTrip(es, 0);
    forall k | 0 <= k < |es|
      ensures EntryAt(TableBytes(es), k, ENTRY_SIZE) == es[k]
    {
      TableRoundTrip(es, k);
    }
  }

  /** Reading through either header gives the partitions that were written, in disk order. */
  lemma ReadsBack(content: seq<byte>, ss: nat, v: seq<Part>, u: Uuids, guid: seq<byte>, probe: Part -> nat,
                  backup: bool)
    requires Roomy(ss, |content|) && GoodList(ss, |content|, v) && GoodUuids(u) && |guid| == GUID_SIZE
    requires var table := TableBytes(TableOf(v, ss, u));
             OnDisk(content, ss, HeaderFor(ss, |content|, guid, table, backup), table)
    ensures var table := TableBytes(TableOf(v, ss, u));
            ReadAt(content, ss, HeaderFor(ss, |content|, guid, table, backup).lbaSelf, probe)
              == RereadAll(v, ss, u, probe)
  {
    hide TableOf, TableBytes, GoodList, GoodUuids, HeaderSector, ReadEntries, EntriesIn, RereadAll, HeaderFor, ReadAt;
    var table := TableBytes(TableOf(v, ss, u));
    var h := HeaderFor(ss, |content|, guid, table, backup);
    HeaderAccepted(ss, |content|, guid, table, backup);
    TableIsGood(v, ss, |content|, u);
    EntriesReadBack(v, ss, |content|, u, probe, 0);
    RereadFields(v, ss, |content|, u, probe);
    UptoNone(RereadAll(v, ss, u, probe));
    HeaderNumbers(ss, |content|, guid, table, backup);
    ReadAtAccepted(content, ss, h, table, probe);
  }

  lemma HeaderNumbers(ss: nat, diskSize: nat, guid: seq<byte>, table: seq<byte>, backup: bool)
    requires ss > 0 && diskSize > 0
    ensures var h := HeaderFor(ss, diskSize, guid, table, backup);
            && h.entries == ENTRY_COUNT && h.entrySize == ENTRY_SIZE && h.crcTable == Checksum(table)
            && h.size == HEADER_SIZE
  {
    hide Checksum, Quotient, Wrapped, HeaderBytes;
  }

  /** A header that is accepted, with its table: what is read. */
  lemma ReadAtAccepted(content: seq<byte>, ss: nat, h: Header, table: seq<byte>, probe: Part -> nat)
    requires MIN_SECTOR <= ss && OnDisk(content, ss, h, table) && |HeaderSector(h, ss)| == ss
    requires HeaderOf(HeaderSector(h, ss)) == h && HeaderOk(HeaderSector(h, ss), h.lbaSelf)
    requires TableOffset(h, ss) == h.lbaTable * ss
    requires h.entries == ENTRY_COUNT && h.entrySize == ENTRY_SIZE && h.crcTable == Checksum(table)
    requires |table| == TABLE_SIZE
    ensures ReadAt(content, ss, h.lbaSelf, probe)
              == ReadEntries(EntriesIn(table, ENTRY_COUNT, ENTRY_SIZE), 0, ss, probe, [])
  {
    hide HeaderOf, HeaderOk, HeaderSector, ReadEntries, EntriesIn, Checksum, TableOffset, HeaderBytes;
  }

  /** The five writes of write_part_gpt. */
  function Written(content: seq<byte>, ss: nat, table: seq<byte>, guid: seq<byte>, mbr: seq<byte>): (r: seq<byte>)
    requires Layout(ss, |content|, guid, table) && |mbr| == MIN_SECTOR
    ensures |r| == |content|
  {
    var p, b := HeaderFor(ss, |content|, guid, table, false), HeaderFor(ss, |content|, guid, table, true);
    var c := Patched(Patched(content, p.lbaTable * ss, table), p.lbaSelf * ss, HeaderSector(p, ss));
    Patched(Patched(Patched(c, b.lbaTable * ss, table), b.lbaSelf * ss, HeaderSector(b, ss)), 0, mbr)
  }

  /** The five regions written lie apart, in this order: MBR, header, table, table, header. */
  predicate Layout(ss: nat, diskSize: nat, guid: seq<byte>, table: seq<byte>) {
    && MIN_SECTOR <= ss && diskSize > 0
    && var p, b := HeaderFor(ss, diskSize, guid, table, false), HeaderFor(ss, diskSize, guid, table, true);
       && |HeaderBytes(p)| == HEADER_SIZE == |HeaderBytes(b)|
       && MIN_SECTOR <= p.lbaSelf * ss && p.lbaSelf * ss + ss <= p.lbaTable * ss
       && p.lbaTable * ss + |table| <= b.lbaTable * ss
       && b.lbaTable * ss + |table| <= b.lbaSelf * ss && b.lbaSelf * ss + ss <= diskSize
  }

  lemma LaidOut(ss: nat, diskSize: nat, guid: seq<byte>, table: seq<byte>)
    requires Roomy(ss, diskSize) && |guid| == GUID_SIZE && |table| == TABLE_SIZE
    ensures Layout(ss, diskSize, guid, table)
  {
    hide Limit, Checksum, HeaderBytes, Quotient, Wrapped;
    RegionsTile(ss, diskSize, guid, Checksum(table));
    DraftFits(ss, diskSize, guid, Checksum(table), false);
    DraftFits(ss, diskSize, guid, Checksum(table), true);
    HeaderRoundTripSize(HeaderFor(ss, diskSize, guid, table, false));
    HeaderRoundTripSize(HeaderFor(ss, diskSize, guid, table, true));
    var p := Draft(ss, diskSize, guid, Checksum(table), false);
    Distribute(p.lbaEnd + 1 - p.lbaStart, p.lbaStart, ss);
    MulAtLeast(p.lbaEnd + 1 - p.lbaStart, ss);
  }

  /** A write does not disturb what lies outside it. */
  lemma PatchedApart(c: seq<byte>, at: nat, data: seq<byte>, lo: nat, hi: nat)
    requires at + |data| <= |c| && lo <= hi <= |c| && (hi <= at || at + |data| <= lo)
    ensures Patched(c, at, data)[lo..hi] == c[lo..hi]
  {
  }

  lemma PatchedHere(c: seq<byte>, at: nat, data: seq<byte>)
    requires at + |data| <= |c|
    ensures Patched(c, at, data)[at..at + |data|] == data
  {
  }

  /** Both headers and both tables end up on the disk. */
  lemma WrittenOnDisk(content: seq<byte>, ss: nat, table: seq<byte>, guid: seq<byte>, mbr: seq<byte>)
    requires Layout(ss, |content|, guid, table) && |mbr| == MIN_SECTOR
    ensures var w := Written(content, ss, table, guid, mbr);
            && OnDisk(w, ss, HeaderFor(ss, |content|, guid, table, false), table)
            && OnDisk(w, ss, HeaderFor(ss, |content|, guid, table, true), table)
  {
    hide HeaderFor, HeaderBytes, Patched;
    var p, b := HeaderFor(ss, |content|, guid, table, false), HeaderFor(ss, |content|, guid, table, true);
    var p1, p2, b1, b2 := p.lbaSelf * ss, p.lbaTable * ss, b.lbaTable * ss, b.lbaSelf * ss;
    var hp, hb := HeaderSector(p, ss), HeaderSector(b, ss);
    FivePatches(content, p1, p2, b1, b2, ss, table, hp, hb, mbr);
  }

  lemma FivePatches(content: seq<byte>, p1: nat, p2: nat, b1: nat, b2: nat, ss: nat, table: seq<byte>, hp: seq<byte>,
                    hb: seq<byte>, mbr: seq<byte>)
    requires |mbr| <= p1 && p1 + ss <= p2 && p2 + |table| <= b1 && b1 + |table| <= b2 && b2 + ss <= |content|
    requires |hp| == ss == |hb|
    ensures var w := Patched(Patched(Patched(Patched(Patched(content, p2, table), p1, hp), b1, table), b2, hb), 0, mbr);
            && w[p1..p1 + ss] == hp && w[p2..p2 + |table|] == table && w[b1..b1 + |table|] == table
            && w[b2..b2 + ss] == hb
  {
    hide Patched;
    var c1 := Patched(content, p2, table);
    var c2 := Patched(c1, p1, hp);
    var c3 := Patched(c2, b1, table);
    var c4 := Patched(c3, b2, hb);
    PatchedHere(content, p2, table);
    PatchedHere(c1, p1, hp);
    PatchedHere(c2, b1, table);
    PatchedHere(c3, b2, hb);
    PatchedApart(c1, p1, hp, p2, p2 + |table|);
    PatchedApart(c2, b1, table, p2, p2 + |table|);
    PatchedApart(c3, b2, hb, p2, p2 + |table|);
    PatchedApart(c4, 0, mbr, p2, p2 + |table|);
    PatchedApart(c2, b1, table, p1, p1 + ss);
    PatchedApart(c3, b2, hb, p1, p1 + ss);
    PatchedApart(c4, 0, mbr, p1, p1 + ss);
    PatchedApart(c3, b2, hb, b1, b1 + |table|);
    PatchedApart(c4, 0, mbr, b1, b1 + |table|);
    PatchedApart(c4, 0, mbr, b2, b2 + ss);
  }

  /** After write_part_gpt the primary read gives the partitions back, and so does the read through the backup. */
  lemma GptRoundTrips(content: seq<byte>, ss: nat, v: seq<Part>, u: Uuids, guid: seq<byte>, mbr: seq<byte>,
                      probe: Part -> nat)
    requires Roomy(ss, |content|) && GoodList(ss, |content|, v) && GoodUuids(u) && |guid| == GUID_SIZE
    requires |mbr| == MIN_SECTOR
    ensures Layout(ss, |content|, guid, TableBytes(TableOf(v, ss, u)))
    ensures var w := Written(content, ss, TableBytes(TableOf(v, ss, u)), guid, mbr);
            var t := RereadAll(v, ss, u, probe);
            && ReadAt(w, ss, 1, probe) == t && ReadAt(w, ss, Quotient(|content| - 1, ss), probe) == t
            && ReadGpt(w, ss, probe) == t
  {
    hide TableOf, TableBytes, GoodList, GoodUuids, ReadAt, OnDisk, RereadAll, Written, Layout, Quotient, Checksum,
         HeaderBytes;
    var table := TableBytes(TableOf(v, ss, u));
    TableIsGood(v, ss, |content|, u);
    LaidOut(ss, |content|, guid, table);
    WrittenOnDisk(content, ss, table, guid, mbr);
    var w := Written(content, ss, table, guid, mbr);
    ReadsBack(w, ss, v, u, guid, probe, false);
    ReadsBack(w, ss, v, u, guid, probe, true);
  }

  // ----- damage -----

  lemma DifferentNumbers(a: seq<byte>, b: seq<byte>)
    requires |a| == |b| && a != b
    ensures FromLe(a) != FromLe(b)
  {
    FromLeRoundTrip(a);
    FromLeRoundTrip(b);
  }

  /** A byte of a header other than those of its size field. */
  predicate Covered(i: nat) {
    i < 12 || 16 <= i < HEADER_SIZE
  }

  /** The header size that is read when byte i of its field is x. */
  function SizeRead(i: nat, x: byte): nat
    requires 12 <= i < 16
  {
    if i == 12 then x else if i == 13 then HEADER_SIZE + 0x100 * x
    else if i == 14 then HEADER_SIZE + 0x1_0000 * x else HEADER_SIZE + 0x100_0000 * x
  }

  /** x in byte i is noticed: everywhere, but for a size that is possible. */
  predicate Noticed(ss: nat, i: nat, x: byte) {
    Covered(i) || (12 <= i < 16 && !(HEADER_SIZE <= SizeRead(i, x) <= ss))
  }

  lemma SizeField(sector: seq<byte>, i: nat, x: byte)
    requires |sector| >= HEADER_SIZE && HeaderOf(sector).size == HEADER_SIZE && 12 <= i < 16
    ensures HeaderOf(sector[i := x]).size == SizeRead(i, x)
  {
    hide HeaderOf;
    HeaderLayout(sector);
    HeaderLayout(sector[i := x]);
    var f := sector[12..16];
    FromLeRoundTrip(f);
    assert f == Le(4, HEADER_SIZE) == [HEADER_SIZE, 0, 0, 0];
    assert sector[i := x][12..16] == f[i - 12 := x];
    FromLeOfFour(f[i - 12 := x]);
  }

  lemma FromLeOfFour(b: seq<byte>)
    requires |b| == 4
    ensures var b0: int, b1: int, b2: int, b3: int := b[0], b[1], b[2], b[3];
            FromLe(b) == b0 + 0x100 * b1 + 0x1_0000 * b2 + 0x100_0000 * b3
  {
    assert FromLe(b[3..]) == b[3] && b[1..][1..] == b[2..] && b[2..][1..] == b[3..];
  }

  /** With one such byte changed, a header is refused. */
  lemma DamagedHeader(sector: seq<byte>, lba: nat, i: nat, x: byte)
    requires MIN_SECTOR <= |sector| && HeaderOk(sector, lba) && HeaderOf(sector).size == HEADER_SIZE
    requires Noticed(|sector|, i, x) && x != sector[i]
    ensures !HeaderOk(sector[i := x], lba)
  {
    hide HeaderOf, Checksum, FromLe;
    var s := sector[i := x];
    HeaderLayout(sector);
    HeaderLayout(s);
    if 12 <= i < 16 {
      SizeField(sector, i, x);
      return;
    }
    assert s[12..16] == sector[12..16];
    if i < 8 {
      assert s[..8][i] != sector[..8][i];
    } else if 16 <= i < 20 {
      assert s[16..20][i - 16] != sector[16..20][i - 16];
      DifferentNumbers(s[16..20], sector[16..20]);
      SummedField(sector, i, x);
    } else {
      assert s[16..20] == sector[16..20];
      SummedOther(sector, i, x);
      ChecksumOfChange(Summed(sector, HEADER_SIZE), i, x);
    }
  }

  lemma SummedField(sector: seq<byte>, i: nat, x: byte)
    requires HEADER_SIZE <= |sector| && 16 <= i < 20
    ensures Summed(sector[i := x], HEADER_SIZE) == Summed(sector, HEADER_SIZE)
  {
  }

  lemma SummedOther(sector: seq<byte>, i: nat, x: byte)
    requires HEADER_SIZE <= |sector| && i < HEADER_SIZE && !(16 <= i < 20)
    ensures Summed(sector[i := x], HEADER_SIZE) == Summed(sector, HEADER_SIZE)[i := x]
    ensures Summed(sector, HEADER_SIZE)[i] == sector[i]
  {
  }

  /** A table with a changed byte is refused. */
  lemma DamagedTable(content: seq<byte>, ss: nat, diskSize: nat, guid: seq<byte>, table: seq<byte>, k: nat, x: byte,
                     probe: Part -> nat)
    requires Roomy(ss, diskSize) && |guid| == GUID_SIZE && |table| == TABLE_SIZE && k < |table| && x != table[k]
    requires OnDisk(content, ss, HeaderFor(ss, diskSize, guid, table, false), table[k := x])
    ensures ReadAt(content, ss, 1, probe) == []
  {
    hide HeaderOf, HeaderOk, HeaderSector, Checksum, TableOffset, ReadEntries, EntriesIn, Quotient, Wrapped;
    HeaderAccepted(ss, diskSize, guid, table, false);
    ChecksumOfChange(table, k, x);
    var h := HeaderFor(ss, diskSize, guid, table, false);
    assert h.entries == ENTRY_COUNT && h.entrySize == ENTRY_SIZE && h.crcTable == Checksum(table) && h.lbaSelf == 1;
  }

  /** The written disk with byte k changed: what the two reads see. */
  lemma DamagedDisk(w: seq<byte>, ss: nat, guid: seq<byte>, table: seq<byte>, k: nat, x: byte)
    requires Layout(ss, |w|, guid, table) && k < |w| && x != w[k]
    requires ss <= k < HeaderFor(ss, |w|, guid, table, true).lbaTable * ss
    requires OnDisk(w, ss, HeaderFor(ss, |w|, guid, table, false), table)
    requires OnDisk(w, ss, HeaderFor(ss, |w|, guid, table, true), table)
    requires HeaderFor(ss, |w|, guid, table, false).lbaSelf == 1 && HeaderFor(ss, |w|, guid, table, false).lbaTable == 2
    ensures var d := w[k := x];
            var p := HeaderFor(ss, |w|, guid, table, false);
            && OnDisk(d, ss, HeaderFor(ss, |w|, guid, table, true), table)
            && (k < 2 * ss ==> x != HeaderSector(p, ss)[k - ss] && d[ss..2 * ss] == HeaderSector(p, ss)[k - ss := x])
            && (2 * ss <= k < 2 * ss + |table| ==> x != table[k - 2 * ss] && OnDisk(d, ss, p, table[k - 2 * ss := x]))
  {
    hide HeaderFor, HeaderBytes, HeaderSector;
    var d := w[k := x];
    var b := HeaderFor(ss, |w|, guid, table, true);
    var b1, b2 := b.lbaTable * ss, b.lbaSelf * ss;
    ChangedByte(w, b1, b1 + |table|, k, x);
    ChangedByte(w, b2, b2 + ss, k, x);
    ChangedByte(w, ss, 2 * ss, k, x);
    if k >= 2 * ss {
      ChangedByte(w, 2 * ss, 2 * ss + |table|, k, x);
    }
  }

  /** A changed byte, seen in a stretch of the disk. */
  lemma ChangedByte(w: seq<byte>, lo: nat, hi: nat, k: nat, x: byte)
    requires lo <= hi <= |w| && k < |w|
    ensures lo <= k < hi ==> w[k := x][lo..hi] == w[lo..hi][k - lo := x] && w[k] == w[lo..hi][k - lo]
    ensures !(lo <= k < hi) ==> w[k := x][lo..hi] == w[lo..hi]
  {
  }

  /** Any one byte of the primary header, unless it makes a possible header size, or of the primary table can be lost:
      the
      damage is noticed and the backup gives all partitions. */
  lemma SurvivesOneByte(content: seq<byte>, ss: nat, v: seq<Part>, u: Uuids, guid: seq<byte>, mbr: seq<byte>,
                        probe: Part -> nat, k: nat, x: byte)
    requires Roomy(ss, |content|) && GoodList(ss, |content|, v) && GoodUuids(u) && |guid| == GUID_SIZE
    requires |mbr| == MIN_SECTOR
    requires Layout(ss, |content|, guid, TableBytes(TableOf(v, ss, u))) && k < |content|
    requires (ss <= k && Noticed(ss, k - ss, x)) || 2 * ss <= k < 2 * ss + TABLE_SIZE
    requires x != Written(content, ss, TableBytes(TableOf(v, ss, u)), guid, mbr)[k]
    ensures var damaged := Written(content, ss, TableBytes(TableOf(v, ss, u)), guid, mbr)[k := x];
            ReadAt(damaged, ss, 1, probe) == [] && ReadGpt(damaged, ss, probe) == RereadAll(v, ss, u, probe)
  {
    hide TableOf, TableBytes, GoodList, GoodUuids, RereadAll, Written, Quotient, Wrapped, Checksum, HeaderBytes,
         HeaderOk, HeaderOf,
         HeaderSector, OnDisk, TableOffset, ReadEntries, EntriesIn;
    var table := TableBytes(TableOf(v, ss, u));
    TableIsGood(v, ss, |content|, u);
    RegionsTile(ss, |content|, guid, Checksum(table));
    WrittenOnDisk(content, ss, table, guid, mbr);
    var w := Written(content, ss, table, guid, mbr);
    var d := w[k := x];
    var p := HeaderFor(ss, |content|, guid, table, false);
    DamagedDisk(w, ss, guid, table, k, x);
    ReadsBack(d, ss, v, u, guid, probe, true);
    HeaderAccepted(ss, |content|, guid, table, false);
    if k < 2 * ss {
      DamagedHeader(HeaderSector(p, ss), 1, k - ss, x);
    } else {
      DamagedTable(d, ss, |content|, guid, table, k - 2 * ss, x, probe);
    }
  }

  /** What the fields after the disk identifier say does not depend on the bytes before or after them. */
  lemma FieldsAfterKept(s: seq<byte>, s': seq<byte>)
    requires HEADER_SIZE <= |s| == |s'| && s[72..92] == s'[72..92]
    ensures SameTable(HeaderOf(s), HeaderOf(s'))
  {
  }

  predicate SameTable(h: Header, h': Header) {
    h'.lbaTable == h.lbaTable && h'.entries == h.entries && h'.entrySize == h.entrySize && h'.crcTable == h.crcTable
  }

  /** The list that a table stands for. */
  function TableList(table: seq<byte>, ss: nat, probe: Part -> nat): seq<Part>
    requires |table| == TABLE_SIZE
  {
    ReadEntries(EntriesIn(table, ENTRY_COUNT, ENTRY_SIZE), 0, ss, probe, [])
  }

  /** `data` is what the disk holds at this position. */
  ghost predicate Holding(content: seq<byte>, at: int, data: seq<byte>) {
    0 <= at <= at + |data| <= |content| && content[at..at + |data|] == data
  }

  /** An accepted header that points to this table. */
  lemma ReadThrough(content: seq<byte>, ss: nat, lba: nat, sector: seq<byte>, h: Header, table: seq<byte>,
                    probe: Part -> nat)
    requires MIN_SECTOR <= ss == |sector| && Holding(content, lba * ss, sector)
    requires HeaderOk(sector, lba) && SameTable(h, HeaderOf(sector))
    requires |table| == TABLE_SIZE && TableOffset(h, ss) == h.lbaTable * ss && Holding(content, h.lbaTable * ss, table)
    requires h.entries == ENTRY_COUNT && h.entrySize == ENTRY_SIZE && h.crcTable == Checksum(table)
    ensures ReadAt(content, ss, lba, probe) == TableList(table, ss, probe)
  {
    hide HeaderOf, HeaderOk, ReadEntries, EntriesIn, Checksum, Wrapped;
  }

  /** A header and its table, found apart from each other and in order. */
  ghost predicate Intact(content: seq<byte>, ss: nat, h: Header, table: seq<byte>) {
    && MIN_SECTOR <= ss && OnDisk(content, ss, h, table) && |HeaderSector(h, ss)| == ss && |table| == TABLE_SIZE
    && HeaderOf(HeaderSector(h, ss)) == h && HeaderOk(HeaderSector(h, ss), h.lbaSelf) && h.size == HEADER_SIZE
    && TableOffset(h, ss) == h.lbaTable * ss
    && h.entries == ENTRY_COUNT && h.entrySize == ENTRY_SIZE && h.crcTable == Checksum(table)
    && (h.lbaSelf * ss + ss <= h.lbaTable * ss || h.lbaTable * ss + |table| <= h.lbaSelf * ss)
  }

  /** Byte k belongs to the header sector or to the table. */
  predicate Touches(ss: nat, h: Header, k: nat) {
    h.lbaSelf * ss <= k < h.lbaSelf * ss + ss || h.lbaTable * ss <= k < h.lbaTable * ss + TABLE_SIZE
  }

  /** A changed byte elsewhere is not seen. */
  lemma ElsewhereUnseen(w: seq<byte>, ss: nat, h: Header, table: seq<byte>, k: nat, x: byte, probe: Part -> nat)
    requires Intact(w, ss, h, table) && k < |w| && !Touches(ss, h, k)
    ensures ReadAt(w[k := x], ss, h.lbaSelf, probe) == TableList(table, ss, probe)
  {
    hide HeaderOf, HeaderOk, HeaderSector, ReadAt, ReadEntries, EntriesIn, Checksum, TableOffset, HeaderBytes;
    var d := w[k := x];
    var s, t := h.lbaSelf * ss, h.lbaTable * ss;
    assert d[s..s + ss] == w[s..s + ss] && d[t..t + |table|] == w[t..t + |table|];
    ReadAtAccepted(d, ss, h, table, probe);
  }

  /** A changed byte of the table is noticed. */
  lemma TableByteSeen(w: seq<byte>, ss: nat, h: Header, table: seq<byte>, k: nat, x: byte, probe: Part -> nat)
    requires Intact(w, ss, h, table) && k < |w| && x != w[k]
    requires h.lbaTable * ss <= k < h.lbaTable * ss + TABLE_SIZE
    ensures ReadAt(w[k := x], ss, h.lbaSelf, probe) == []
  {
    hide HeaderOf, HeaderOk, HeaderSector, ReadEntries, EntriesIn, Checksum, TableOffset, HeaderBytes;
    var d := w[k := x];
    var s, t := h.lbaSelf * ss, h.lbaTable * ss;
    assert d[s..s + ss] == w[s..s + ss];
    assert w[k] == w[t..t + |table|][k - t];
    assert d[t..t + |table|] == table[k - t := x];
    ChecksumOfChange(table, k - t, x);
  }

  /** A changed byte of the header sector is noticed, or makes no difference. */
  lemma HeaderByteHarmless(w: seq<byte>, ss: nat, h: Header, table: seq<byte>, k: nat, x: byte, probe: Part -> nat)
    requires Intact(w, ss, h, table) && k < |w| && x != w[k] && h.lbaSelf * ss <= k < h.lbaSelf * ss + ss
    ensures var r := ReadAt(w[k := x], ss, h.lbaSelf, probe); r == [] || r == TableList(table, ss, probe)
  {
    hide HeaderOf, HeaderOk, HeaderSector, ReadAt, ReadEntries, EntriesIn, Checksum, TableOffset, HeaderBytes;
    var d := w[k := x];
    var s, t := h.lbaSelf * ss, h.lbaTable * ss;
    var i, sector := k - s, w[s..s + ss];
    assert d[s..s + ss] == sector[i := x] && w[k] == sector[i] && d[t..t + |table|] == table;
    if HeaderOk(sector[i := x], h.lbaSelf) {
      if Covered(i) {
        DamagedHeader(sector, h.lbaSelf, i, x);
      } else {
        assert sector[i := x][72..92] == sector[72..92];
        FieldsAfterKept(sector, sector[i := x]);
        ReadThrough(d, ss, h.lbaSelf, sector[i := x], h, table, probe);
      }
    } else {
      Refused(d, ss, h.lbaSelf, probe);
    }
  }

  lemma Refused(content: seq<byte>, ss: nat, lba: nat, probe: Part -> nat)
    requires MIN_SECTOR <= ss && 0 <= lba * ss <= lba * ss + ss <= |content|
    requires !HeaderOk(content[lba * ss..lba * ss + ss], lba)
    ensures ReadAt(content, ss, lba, probe) == []
  {
    hide HeaderOk, HeaderOf;
  }

  /** Either header, as it is written. */
  lemma WrittenIntact(w: seq<byte>, ss: nat, guid: seq<byte>, table: seq<byte>, backup: bool)
    requires Roomy(ss, |w|) && |guid| == GUID_SIZE && |table| == TABLE_SIZE
    requires OnDisk(w, ss, HeaderFor(ss, |w|, guid, table, backup), table)
    ensures Intact(w, ss, HeaderFor(ss, |w|, guid, table, backup), table)
  {
    hide HeaderOf, HeaderOk, HeaderSector, OnDisk, TableOffset, Quotient, Wrapped, Checksum, HeaderBytes;
    HeaderAccepted(ss, |w|, guid, table, backup);
    HeaderNumbers(ss, |w|, guid, table, backup);
    RegionsTile(ss, |w|, guid, Checksum(table));
  }

  /** No byte belongs to both copies. */
  lemma TouchesOne(ss: nat, diskSize: nat, guid: seq<byte>, table: seq<byte>, k: nat)
    requires Roomy(ss, diskSize) && |guid| == GUID_SIZE && |table| == TABLE_SIZE
    ensures !(Touches(ss, HeaderFor(ss, diskSize, guid, table, false), k)
              && Touches(ss, HeaderFor(ss, diskSize, guid, table, true), k))
    ensures HeaderFor(ss, diskSize, guid, table, false).lbaSelf == 1
    ensures HeaderFor(ss, diskSize, guid, table, true).lbaSelf == Quotient(diskSize - 1, ss)
  {
    hide Quotient, Wrapped, Checksum, HeaderBytes, Touches;
    LaidOut(ss, diskSize, guid, table);
    TouchesApart(ss, HeaderFor(ss, diskSize, guid, table, false), HeaderFor(ss, diskSize, guid, table, true), k);
  }

  lemma TouchesApart(ss: nat, p: Header, b: Header, k: nat)
    requires p.lbaSelf * ss + ss <= p.lbaTable * ss && p.lbaTable * ss + TABLE_SIZE <= b.lbaTable * ss
    requires b.lbaTable * ss + TABLE_SIZE <= b.lbaSelf * ss
    ensures !(Touches(ss, p, k) && Touches(ss, b, k))
  {
  }

  /** Any one byte of the whole disk can be lost, whether that is noticed or not: all partitions are read. */
  lemma SurvivesAnyByte(content: seq<byte>, ss: nat, v: seq<Part>, u: Uuids, guid: seq<byte>, mbr: seq<byte>,
                        probe: Part -> nat, k: nat, x: byte)
    requires Roomy(ss, |content|) && GoodList(ss, |content|, v) && GoodUuids(u) && |guid| == GUID_SIZE
    requires |mbr| == MIN_SECTOR && k < |content|
    ensures Layout(ss, |content|, guid, TableBytes(TableOf(v, ss, u)))
    ensures var damaged := Written(content, ss, TableBytes(TableOf(v, ss, u)), guid, mbr)[k := x];
            ReadGpt(damaged, ss, probe) == RereadAll(v, ss, u, probe)
  {
    hide TableOf, TableBytes, GoodList, GoodUuids, RereadAll, Written, Layout, HeaderFor, ReadAt, OnDisk, Intact,
         Touches,
         TableList, Quotient;
    var table := TableBytes(TableOf(v, ss, u));
    GptRoundTrips(content, ss, v, u, guid, mbr, probe);
    TableIsGood(v, ss, |content|, u);
    WrittenOnDisk(content, ss, table, guid, mbr);
    var w := Written(content, ss, table, guid, mbr);
    if x == w[k] {
      assert w[k := x] == w;
      return;
    }
    WrittenIntact(w, ss, guid, table, false);
    WrittenIntact(w, ss, guid, table, true);
    TouchesOne(ss, |content|, guid, table, k);
    IntactRead(w, ss, HeaderFor(ss, |w|, guid, table, false), table, probe);
    OneByteOff(w, ss, HeaderFor(ss, |w|, guid, table, false), table, k, x, probe);
    OneByteOff(w, ss, HeaderFor(ss, |w|, guid, table, true), table, k, x, probe);
  }

  lemma IntactRead(w: seq<byte>, ss: nat, h: Header, table: seq<byte>, probe: Part -> nat)
    requires Intact(w, ss, h, table)
    ensures ReadAt(w, ss, h.lbaSelf, probe) == TableList(table, ss, probe)
  {
    hide HeaderOf, HeaderOk, HeaderSector, ReadAt, ReadEntries, EntriesIn, Checksum, TableOffset, HeaderBytes;
    ReadAtAccepted(w, ss, h, table, probe);
  }

  /** One copy, with one byte changed: all of it or nothing is read, and all of it if the byte is not its own. */
  lemma OneByteOff(w: seq<byte>, ss: nat, h: Header, table: seq<byte>, k: nat, x: byte, probe: Part -> nat)
    requires Intact(w, ss, h, table) && k < |w| && x != w[k]
    ensures var r := ReadAt(w[k := x], ss, h.lbaSelf, probe);
            && (r == [] || r == TableList(table, ss, probe))
            && (!Touches(ss, h, k) ==> r == TableList(table, ss, probe))
  {
    hide Intact, ReadAt, TableList;
    if !Touches(ss, h, k) {
      ElsewhereUnseen(w, ss, h, table, k, x, probe);
    } else if h.lbaSelf * ss <= k < h.lbaSelf * ss + ss {
      HeaderByteHarmless(w, ss, h, table, k, x, probe);
    } else {
      TableByteSeen(w, ss, h, table, k, x, probe);
    }
  }
}

/** write_part_gpt and read_part_gpt. */
module GptTables {
  import opened Arith
  import opened Disks
  import opened ListOrder
  import opened Partitions
  import opened GptStructure
  import opened Gpt
  import opened GptDisk
  import opened GptRoundTrip

  /** The partitions' entries; write_part_gpt's first loop. */
  method FillTable(list: seq<Partition>, ss: nat, u: Uuids) returns (table: seq<Entry>)
    requires ss > 0
    ensures table == TableOf(View(list), ss, u)
  {
    hide Generated;
    table := seq(ENTRY_COUNT, _ => BLANK_ENTRY);
    ghost var v := View(list);
    for i := 0 to |list|
      invariant table == Filled(seq(ENTRY_COUNT, _ => BLANK_ENTRY), v[..i], ss, u)
    {
      assert v[..i + 1][..i] == v[..i];
      var p := list[i].p;
      if p.order > 0 && p.order <= ENTRY_COUNT {
        var e := PartitionGenerateGptEntry(table[p.order - 1], p, ss, u);
        table := table[p.order - 1 := e];
      }
    }
    assert v[..|list|] == v;
  }

  /** partition_generate_gpt_entry */
  method PartitionGenerateGptEntry(slot: Entry, p: Part, ss: nat, u: Uuids) returns (e: Entry)
    requires ss > 0
    ensures e == Generated(slot, p, ss, u)
  {
    var lba := Quotient(p.offset, ss);
    var k := FindGptEntry(u.org, lba);
    var uuid := if k >= 0 then u.org[k].uuid else if p.uuid != UNUSED then p.uuid else u.generated(p);
    e := Entry(p.typeGpt, uuid, lba, Quotient(Wrapped(p.offset + p.size - 1), ss), 0,
               Unicode.Encoded(slot.name, p.name));
  }

  /** write_part_gpt.  `guid` and `u` stand for what was read from the disk before or generated, `mbr` for the sector
      the MBR code writes in the end. */
  method WritePartGpt(disk: Disk, ss: nat, list: seq<Partition>, u: Uuids, guid: seq<byte>, mbr: seq<byte>, ro: bool)
    returns (res: int)
    requires GoodUuids(u) && |guid| == GUID_SIZE && |mbr| == MIN_SECTOR
    requires MIN_SECTOR <= ss && |disk.content| > 0 && forall i :: 0 <= i < |list| ==> IsPartition(list[i].p)
    modifies disk
    ensures |disk.content| == |old(disk.content)| && (ro ==> disk.content == old(disk.content) && res == 0)
    ensures var table := TableBytes(TableOf(View(list), ss, u));
            disk.reliable && !ro && Roomy(ss, |disk.content|) ==>
              res == 0 && Layout(ss, |disk.content|, guid, table)
                && disk.content == Written(old(disk.content), ss, table, guid, mbr)
  {
    hide TableOf, TableBytes, IsPartition, Roomy, HeaderFor, HeaderBytes, GoodUuids, Patched;
    if ro {
      return 0;
    }
    ghost var content := disk.content;
    var entries := FillTable(list, ss, u);
    var table := TableBytes(entries);
    TableHasSize(View(list), ss, u);
    if Roomy(ss, |content|) {
      LaidOut(ss, |content|, guid, table);
    }
    var gpt := HeaderFor(ss, |disk.content|, guid, table, false);
    var status := disk.Pwrite(table, gpt.lbaTable * ss);
    if status != |table| {
      return 1;
    }
    status := disk.Pwrite(HeaderSector(gpt, ss), gpt.lbaSelf * ss);
    if status != ss {
      return 1;
    }
    gpt := HeaderFor(ss, |disk.content|, guid, table, true);
    status := disk.Pwrite(table, gpt.lbaTable * ss);
    if status != |table| {
      return 1;
    }
    status := disk.Pwrite(HeaderSector(gpt, ss), gpt.lbaSelf * ss);
    if status != ss {
      return 1;
    }
    status := disk.Pwrite(mbr, 0);
    res := 0;
  }

  /** The identifiers of a partition have 16 bytes, its name is a C string. */
  predicate IsPartition(p: Part) {
    |p.typeGpt| == GUID_SIZE == |p.uuid| && 0 !in p.name
  }

  lemma {:induction false} FilledShaped(table: seq<Entry>, v: seq<Part>, ss: nat, u: Uuids)
    requires ss > 0 && GoodUuids(u) && forall k :: 0 <= k < |table| ==> Shaped(table[k])
    requires forall i :: 0 <= i < |v| ==> IsPartition(v[i])
    ensures forall k :: 0 <= k < ENTRY_COUNT && k < |table| ==> Shaped(Filled(table, v, ss, u)[k])
    decreases |v|
  {
    hide Quotient, Wrapped;
    if |v| > 0 {
      FilledShaped(table, v[..|v| - 1], ss, u);
      var p := v[|v| - 1];
      UuidSize(u, p, Quotient(p.offset, ss));
    }
  }

  lemma TableHasSize(v: seq<Part>, ss: nat, u: Uuids)
    requires ss > 0 && GoodUuids(u) && forall i :: 0 <= i < |v| ==> IsPartition(v[i])
    ensures |TableBytes(TableOf(v, ss, u))| == TABLE_SIZE
  {
    hide TableBytes, Filled;
    BlankFits();
    FilledShaped(seq(ENTRY_COUNT, _ => BLANK_ENTRY), v, ss, u);
    TableSize(TableOf(v, ss, u));
  }

  /** read_part_gpt_aux */
  method ReadPartGptAux(disk: Disk, ss: nat, lba: nat, probe: Part -> nat) returns (r: seq<Partition>)
    requires MIN_SECTOR <= ss
    ensures View(r) == [] || View(r) == ReadAt(disk.content, ss, lba, probe)
    ensures disk.reliable ==> View(r) == ReadAt(disk.content, ss, lba, probe)
  {
    hide HeaderOf, HeaderOk, Checksum, GptDisk.ReadEntries, EntriesIn, Wrapped, TableOffset;
    MulNonNeg(lba, ss);
    var status, sector := disk.Pread(ss, lba * ss);
    assert sector == sector[..ss];
    if status != ss || !HeaderOk(sector, lba) {
      return [];
    }
    var h := HeaderOf(sector);
    SectorNumbers(sector, lba);
    MulNonNeg(h.entries, h.entrySize);
    var table;
    status, table := disk.Pread(h.entries * h.entrySize, TableOffset(h, ss));
    assert table == table[..h.entries * h.entrySize];
    if status != h.entries * h.entrySize || Checksum(table) != h.crcTable {
      return [];
    }
    r := ListEntries(EntriesIn(table, h.entries, h.entrySize), ss, probe);
  }

  lemma SectorNumbers(sector: seq<byte>, lba: nat)
    requires MIN_SECTOR <= |sector| && HeaderOk(sector, lba)
    ensures HeaderOf(sector).entrySize >= ENTRY_SIZE
    ensures HeaderOf(sector).entries * HeaderOf(sector).entrySize >= TABLE_SIZE
  {
    hide HeaderOf, Checksum, Wrapped, TableOffset;
  }

  /** The loop over the entries. */
  method ListEntries(es: seq<Entry>, ss: nat, probe: Part -> nat) returns (r: seq<Partition>)
    ensures View(r) == GptDisk.ReadEntries(es, 0, ss, probe, [])
  {
    hide PartOf, Added, Distinct;
    r := [];
    NothingYet();
    for i := 0 to |es|
      invariant Distinct(r) && forall y :: y in r ==> fresh(y)
      invariant GptDisk.ReadEntries(es, i, ss, probe, View(r)) == GptDisk.ReadEntries(es, 0, ss, probe, [])
    {
      if es[i].typeGuid != UNUSED && es[i].lbaStart < es[i].lbaEnd {
        var added;
        r, added := AddPart(r, PartOf(es[i], ss, i + 1, probe));
      }
    }
  }

  /** read_part_gpt */
  method ReadPartGpt(disk: Disk, ss: nat, probe: Part -> nat) returns (r: seq<Partition>)
    requires MIN_SECTOR <= ss && |disk.content| > 0
    ensures || View(r) == [] || View(r) == ReadAt(disk.content, ss, 1, probe)
            || View(r) == ReadAt(disk.content, ss, Quotient(|disk.content| - 1, ss), probe)
    ensures disk.reliable ==> View(r) == ReadGpt(disk.content, ss, probe)
  {
    hide ReadAt;
    r := ReadPartGptAux(disk, ss, 1, probe);
    if |r| == 0 {
      r := ReadPartGptAux(disk, ss, Quotient(|disk.content| - 1, ss), probe);
    }
  }
}
