/** The bytes of a GPT, as any other program sees them: sections 5.2 and 5.3 of the UEFI Specification. */
module GptBytes {
  import opened Arith
  import opened Disks
  import opened LittleEndian
  import opened Partitions
  import opened Unicode
  import opened GptStructure
  import opened Gpt
  import opened GptDisk
  import opened GptRoundTrip

  // ----- what is written -----

  /** The 128 bytes of the entry of p: type, identifier, first sector, last sector, attributes, name. */
  ghost predicate IsEntry(b: seq<byte>, p: Part, uuid: seq<byte>, ss: nat) {
    && |b| == 128
    && b[..16] == p.typeGpt && b[16..32] == uuid
    && FromLe(b[32..40]) * ss == p.offset && (FromLe(b[40..48]) + 1) * ss == p.offset + p.size
    && FromLe(b[48..56]) == 0
    && forall k :: 0 <= k < 36 ==> NameUnit(b, k) == if k < |p.name| then p.name[k] else 0
  }

  /** The k-th of the two-byte units of a name. */
  function NameUnit(b: seq<byte>, k: nat): nat
    requires 58 + 2 * k <= |b|
  {
    FromLe(b[56 + 2 * k..58 + 2 * k])
  }

  /** The first entry on the disk that starts there, with an identifier not seen before. */
  ghost predicate Known(org: seq<Entry>, lba: nat, k: nat) {
    && k < |org| && org[k].lbaStart == lba && org[k].uuid != NulBytes(16)
    && forall j :: 0 <= j < k ==> org[j].uuid != org[k].uuid && (org[j].lbaStart != lba || org[j].uuid == NulBytes(16))
  }

  /** A partition keeps the identifier it has on the disk; else it has its own, else a new one. */
  lemma WhichIdentifier(u: Uuids, p: Part, lba: nat)
    ensures forall k: nat :: Known(u.org, lba, k) ==> ChosenUuid(u, p, lba) == u.org[k].uuid
    ensures (forall k: nat :: !Known(u.org, lba, k)) ==>
              ChosenUuid(u, p, lba) == if p.uuid != NulBytes(16) then p.uuid else u.generated(p)
  {
    assert NulBytes(16) == UNUSED;
    forall k: nat | Known(u.org, lba, k)
      ensures FoundEntry(u.org, lba) == k
    {
    }
    var k := FoundEntry(u.org, lba);
    if k >= 0 {
      assert Known(u.org, lba, k);
    }
  }

  /** The two copies of the table: behind the primary header, and before the backup header in the last sector. */
  predicate IsTable(at: nat, ss: nat, diskSize: nat) {
    at == 2 * ss || at + 16_384 + ss == diskSize
  }

  lemma EntryOfPart(es: seq<Entry>, v: seq<Part>, ss: nat, diskSize: nat, u: Uuids, j: nat)
    requires ss > 0 && GoodList(ss, diskSize, v) && GoodUuids(u) && es == TableOf(v, ss, u) && j < |v|
    ensures var p, b := v[j], TableBytes(es);
            && 1 <= p.order <= 128 && |b| == TABLE_SIZE
            && IsEntry(b[128 * (p.order - 1)..128 * p.order], p, ChosenUuid(u, p, Quotient(p.offset, ss)), ss)
  {
    hide TableOf, TableBytes, GoodUuids, EntryOf, ChosenUuid, FromLe, Wrapped, IsEntry, Generated, GoodPart;
    var p, b := v[j], TableBytes(es);
    TableIsGood(v, ss, diskSize, u);
    SlotIs(v, ss, diskSize, u, j);
    var k := p.order - 1;
    var e := b[128 * k..128 * k + 128];
    assert EntriesIn(b, ENTRY_COUNT, ENTRY_SIZE)[k] == EntryOf(e);
    BytesOfEntry(e, p, ss, diskSize, u);
  }

  lemma BytesOfEntry(b: seq<byte>, p: Part, ss: nat, diskSize: nat, u: Uuids)
    requires |b| == ENTRY_SIZE && ss > 0 && GoodPart(ss, diskSize, p)
    requires EntryOf(b) == Generated(BLANK_ENTRY, p, ss, u)
    ensures IsEntry(b, p, ChosenUuid(u, p, Quotient(p.offset, ss)), ss)
  {
    hide EntryOf, ChosenUuid, FromLe, Wrapped, Quotient, Encoded;
    EntryLayout(b);
    EntryEnds(p, ss, diskSize);
    var e := EntryOf(b);
    forall k | 0 <= k < 36
      ensures NameUnit(b, k) == if k < |p.name| then p.name[k] else 0
    {
      assert e.name[k] == if k < |p.name| then p.name[k] else 0;
    }
  }

  /** The slot of a partition, as it was generated. */
  lemma SlotIs(v: seq<Part>, ss: nat, diskSize: nat, u: Uuids, j: nat)
    requires ss > 0 && GoodList(ss, diskSize, v) && GoodUuids(u) && j < |v|
    ensures 1 <= v[j].order <= ENTRY_COUNT
    ensures TableOf(v, ss, u)[v[j].order - 1] == Generated(BLANK_ENTRY, v[j], ss, u)
  {
    hide Generated;
    assert GoodPart(ss, diskSize, v[j]);
    FilledAt(seq(ENTRY_COUNT, _ => BLANK_ENTRY), v, ss, u, j);
  }

  lemma EntryEnds(p: Part, ss: nat, diskSize: nat)
    requires ss > 0 && GoodPart(ss, diskSize, p)
    ensures Quotient(p.offset, ss) * ss == p.offset
    ensures (Quotient(Wrapped(p.offset + p.size - 1), ss) + 1) * ss == p.offset + p.size
  {
    var a, n := Quotient(p.offset, ss), Quotient(p.size, ss);
    WholeMultiple(p.offset, ss);
    WholeMultiple(p.size, ss);
    Distribute(a, n, ss);
    LastSector(p.End(), a + n, ss);
    SmallWrap(p.End() - 1);
  }

  /** An unused slot. */
  lemma EmptySlot(es: seq<Entry>, v: seq<Part>, ss: nat, diskSize: nat, u: Uuids, k: nat)
    requires ss > 0 && GoodList(ss, diskSize, v) && GoodUuids(u) && es == TableOf(v, ss, u) && k < ENTRY_COUNT
    requires forall j :: 0 <= j < |v| ==> v[j].order != k + 1
    ensures var b := TableBytes(es); |b| == TABLE_SIZE && b[128 * k..128 * k + 16] == NulBytes(16)
  {
    hide TableBytes, GoodUuids, EntryOf, ChosenUuid, FromLe, Wrapped, IsEntry, Generated, GoodPart, Filled;
    var b := TableBytes(es);
    TableIsGood(v, ss, diskSize, u);
    FilledOther(seq(ENTRY_COUNT, _ => BLANK_ENTRY), v, ss, u, k);
    var e := b[128 * k..128 * k + 128];
    assert EntriesIn(b, ENTRY_COUNT, ENTRY_SIZE)[k] == EntryOf(e);
    EntryLayout(e);
    Within(b, 128 * k, 128 * k + 128, 0, 16);
    assert e[0..16] == e[..16];
  }

  /** Where the headers and the tables are. */
  lemma Places(ss: nat, diskSize: nat, guid: seq<byte>, table: seq<byte>)
    requires Roomy(ss, diskSize) && |guid| == GUID_SIZE && |table| == TABLE_SIZE
    ensures Layout(ss, diskSize, guid, table)
    ensures var p, b := HeaderFor(ss, diskSize, guid, table, false), HeaderFor(ss, diskSize, guid, table, true);
            && p.lbaSelf * ss == ss && p.lbaTable * ss == 2 * ss && p.lbaAlt * ss == diskSize - ss
            && b.lbaSelf * ss == diskSize - ss && b.lbaTable * ss == diskSize - ss - 16_384 && b.lbaAlt * ss == ss
            && p.lbaStart * ss == b.lbaStart * ss == 2 * ss + 16_384
            && (p.lbaEnd + 1) * ss == (b.lbaEnd + 1) * ss == diskSize - ss - 16_384
  {
    hide Checksum, Quotient, Wrapped, HeaderBytes;
    RegionsTile(ss, diskSize, guid, Checksum(table));
    LaidOut(ss, diskSize, guid, table);
  }

  /** Both tables hold the same bytes. */
  lemma TableOnDisk(content: seq<byte>, ss: nat, table: seq<byte>, guid: seq<byte>, mbr: seq<byte>, at: nat)
    requires Roomy(ss, |content|) && |guid| == GUID_SIZE && |mbr| == MIN_SECTOR && |table| == TABLE_SIZE
    requires IsTable(at, ss, |content|)
    ensures Layout(ss, |content|, guid, table)
    ensures at + 16_384 <= |content| && Written(content, ss, table, guid, mbr)[at..at + 16_384] == table
  {
    hide HeaderFor, Written, HeaderSector, HeaderBytes;
    Places(ss, |content|, guid, table);
    WrittenOnDisk(content, ss, table, guid, mbr);
  }

  /** After write_part_gpt the partition with number n has the n-th entry of both tables. */
  lemma EntryOnDisk(content: seq<byte>, ss: nat, v: seq<Part>, u: Uuids, guid: seq<byte>, mbr: seq<byte>, j: nat,
                    at: nat)
    requires Roomy(ss, |content|) && GoodList(ss, |content|, v) && GoodUuids(u) && |guid| == GUID_SIZE
    requires |mbr| == MIN_SECTOR && j < |v| && IsTable(at, ss, |content|)
    ensures Layout(ss, |content|, guid, TableBytes(TableOf(v, ss, u)))
    ensures var w, p := Written(content, ss, TableBytes(TableOf(v, ss, u)), guid, mbr), v[j];
            && 1 <= p.order && at + 128 * p.order <= |w|
            && IsEntry(w[at + 128 * (p.order - 1)..at + 128 * p.order], p,
                       ChosenUuid(u, p, Quotient(p.offset, ss)), ss)
  {
    hide TableOf, TableBytes, GoodList, GoodUuids, IsEntry, ChosenUuid, Written, Layout;
    var es := TableOf(v, ss, u);
    EntryOfPart(es, v, ss, |content|, u, j);
    TableOnDisk(content, ss, TableBytes(es), guid, mbr, at);
    Within(Written(content, ss, TableBytes(es), guid, mbr), at, at + 16_384, 128 * (v[j].order - 1), 128 * v[j].order);
  }

  /** An entry without a partition has no type, in both tables. */
  lemma EmptyOnDisk(content: seq<byte>, ss: nat, v: seq<Part>, u: Uuids, guid: seq<byte>, mbr: seq<byte>, k: nat,
                    at: nat)
    requires Roomy(ss, |content|) && GoodList(ss, |content|, v) && GoodUuids(u) && |guid| == GUID_SIZE
    requires |mbr| == MIN_SECTOR && k < 128 && IsTable(at, ss, |content|)
    requires forall j :: 0 <= j < |v| ==> v[j].order != k + 1
    ensures Layout(ss, |content|, guid, TableBytes(TableOf(v, ss, u)))
    ensures var w := Written(content, ss, TableBytes(TableOf(v, ss, u)), guid, mbr);
            at + 128 * k + 16 <= |w| && w[at + 128 * k..at + 128 * k + 16] == NulBytes(16)
  {
    hide TableOf, TableBytes, GoodList, GoodUuids, Written, Layout;
    var es := TableOf(v, ss, u);
    EmptySlot(es, v, ss, |content|, u, k);
    TableOnDisk(content, ss, TableBytes(es), guid, mbr, at);
    Within(Written(content, ss, TableBytes(es), guid, mbr), at, at + 16_384, 128 * k, 128 * k + 16);
  }

  /** A header, field by field. */
  ghost predicate IsHeader(s: seq<byte>, ss: nat, diskSize: nat, self: nat, alt: nat, tableAt: nat, guid: seq<byte>,
                           table: seq<byte>) {
    && |s| == ss >= 512
    && s[..8] == [69, 70, 73, 32, 80, 65, 82, 84]
    && FromLe(s[8..12]) == 0x1_0000 && FromLe(s[12..16]) == 92 && FromLe(s[20..24]) == 0
    && FromLe(s[16..20]) == Checksum(s[..16] + [0, 0, 0, 0] + s[20..92])
    && FromLe(s[24..32]) * ss == self && FromLe(s[32..40]) * ss == alt
    && FromLe(s[40..48]) * ss == 2 * ss + 16_384 && (FromLe(s[48..56]) + 1) * ss == diskSize - ss - 16_384
    && s[56..72] == guid && FromLe(s[72..80]) * ss == tableAt
    && FromLe(s[80..84]) == 128 && FromLe(s[84..88]) == 128 && FromLe(s[88..92]) == Checksum(table)
    && s[92..] == NulBytes(ss - 92)
  }

  lemma HeaderIs(ss: nat, diskSize: nat, guid: seq<byte>, table: seq<byte>, backup: bool)
    requires Roomy(ss, diskSize) && |guid| == GUID_SIZE && |table| == TABLE_SIZE
    ensures var h := HeaderFor(ss, diskSize, guid, table, backup);
            && |HeaderSector(h, ss)| == ss
            && IsHeader(HeaderSector(h, ss), ss, diskSize, if backup then diskSize - ss else ss,
                        if backup then ss else diskSize - ss, if backup then diskSize - ss - 16_384 else 2 * ss, guid,
                        table)
  {
    hide Checksum, FromLe, HeaderOf, HeaderBytes, Quotient, Wrapped;
    var h := HeaderFor(ss, diskSize, guid, table, backup);
    var s := HeaderSector(h, ss);
    HeaderAccepted(ss, diskSize, guid, table, backup);
    HeaderLayout(s);
    HeaderNumbers(ss, diskSize, guid, table, backup);
    Places(ss, diskSize, guid, table);
    assert Summed(s, 92) == s[..16] + [0, 0, 0, 0] + s[20..92];
  }

  /** After write_part_gpt both headers are on the disk, each naming the other. */
  lemma HeadersOnDisk(content: seq<byte>, ss: nat, table: seq<byte>, guid: seq<byte>, mbr: seq<byte>)
    requires Roomy(ss, |content|) && |guid| == GUID_SIZE && |mbr| == MIN_SECTOR && |table| == TABLE_SIZE
    ensures Layout(ss, |content|, guid, table)
    ensures var w, n := Written(content, ss, table, guid, mbr), |content|;
            && IsHeader(w[ss..2 * ss], ss, n, ss, n - ss, 2 * ss, guid, table)
            && IsHeader(w[n - ss..], ss, n, n - ss, ss, n - ss - 16_384, guid, table)
  {
    hide HeaderFor, HeaderBytes, HeaderSector, IsHeader, Written;
    Places(ss, |content|, guid, table);
    WrittenOnDisk(content, ss, table, guid, mbr);
    HeaderIs(ss, |content|, guid, table, false);
    HeaderIs(ss, |content|, guid, table, true);
    var w, n := Written(content, ss, table, guid, mbr), |content|;
    assert w[n - ss..] == w[n - ss..n];
  }

  /** And nothing else is written but the first 512 bytes. */
  lemma ElsewhereKept(content: seq<byte>, ss: nat, table: seq<byte>, guid: seq<byte>, mbr: seq<byte>, k: nat)
    requires Roomy(ss, |content|) && |guid| == GUID_SIZE && |mbr| == MIN_SECTOR && |table| == TABLE_SIZE
    requires k < |content|
    ensures Layout(ss, |content|, guid, table)
    ensures var w, n := Written(content, ss, table, guid, mbr), |content|;
            && (k < 512 ==> w[k] == mbr[k])
            && (512 <= k < ss || 2 * ss + 16_384 <= k < n - ss - 16_384 ==> w[k] == content[k])
  {
    hide HeaderFor, HeaderBytes, HeaderSector, Patched, IsHeader, Roomy;
    Places(ss, |content|, guid, table);
    HeaderIs(ss, |content|, guid, table, false);
    HeaderIs(ss, |content|, guid, table, true);
    var p, b := HeaderFor(ss, |content|, guid, table, false), HeaderFor(ss, |content|, guid, table, true);
    var c1 := Patched(content, 2 * ss, table);
    var c2 := Patched(c1, ss, HeaderSector(p, ss));
    var c3 := Patched(c2, |content| - ss - 16_384, table);
    var c4 := Patched(c3, |content| - ss, HeaderSector(b, ss));
    PatchedAt(content, 2 * ss, table, k);
    PatchedAt(c1, ss, HeaderSector(p, ss), k);
    PatchedAt(c2, |content| - ss - 16_384, table, k);
    PatchedAt(c3, |content| - ss, HeaderSector(b, ss), k);
    PatchedAt(c4, 0, mbr, k);
    assert Written(content, ss, table, guid, mbr) == Patched(c4, 0, mbr);
  }

  lemma PatchedAt(c: seq<byte>, at: nat, data: seq<byte>, k: nat)
    requires at + |data| <= |c| && k < |c|
    ensures Patched(c, at, data)[k] == if at <= k < at + |data| then data[k - at] else c[k]
  {
  }

  // ----- what is read -----

  /** The checks on a header, in terms of its bytes. */
  lemma HeaderChecks(s: seq<byte>, lba: nat)
    requires 512 <= |s|
    ensures var ss, size := |s|, FromLe(s[12..16]);
            HeaderOk(s, lba) <==>
              && s[..8] == [69, 70, 73, 32, 80, 65, 82, 84]
              && 92 <= size <= ss
              && FromLe(s[16..20]) == Checksum(s[..16] + [0, 0, 0, 0] + s[20..size])
              && FromLe(s[24..32]) == lba
              && FromLe(s[40..48]) < FromLe(s[48..56])
              && 0 < FromLe(s[80..84]) <= 4096
              && FromLe(s[84..88]) % 8 == 0 && 128 <= FromLe(s[84..88]) <= 4096
              && FromLe(s[80..84]) * FromLe(s[84..88]) >= 16_384
              && (lba == 1 ==> size < FromLe(s[72..80]) * ss % WORD64 < FromLe(s[40..48]) * ss % WORD64)
  {
    hide HeaderOf, Checksum, FromLe, Summed;
    HeaderLayout(s);
    if 92 <= FromLe(s[12..16]) <= |s| {
      SummedIs(s, FromLe(s[12..16]));
    }
  }

  lemma SummedIs(s: seq<byte>, size: nat)
    requires 92 <= size <= |s|
    ensures Summed(s, size) == s[..16] + [0, 0, 0, 0] + s[20..size]
  {
  }

  /** The entry at this position of the disk is in use and has more than one sector. */
  predicate ListedAt(b: seq<byte>, at: nat)
    requires at + 128 <= |b|
  {
    b[at..at + 16] != NulBytes(16) && FromLe(b[at + 32..at + 40]) < FromLe(b[at + 40..at + 48])
  }

  /** The partition that the bytes of an entry stand for, in 64-bit arithmetic. */
  ghost predicate StandsFor(b: seq<byte>, at: nat, ss: nat, order: nat, probe: Part -> nat, q: Part)
    requires at + 128 <= |b|
  {
    var first, last := FromLe(b[at + 32..at + 40]), FromLe(b[at + 40..at + 48]);
    var units := seq(36, k requires 0 <= k < 36 => FromLe(b[at + 56 + 2 * k..at + 58 + 2 * k]));
    && q.offset == first * ss % WORD64 && q.size == (last - first + 1) * ss % WORD64
    && q.typeGpt == b[at..at + 16] && q.uuid == b[at + 16..at + 32] && q.name == Decoded(units)
    && q.status == Prim && q.order == order
    && q.sbOffset == q.typeI386 == q.typeMac == q.typeSun == q.typeXbox == 0 && q.errcode == BadNoErr
    && q.upartType == probe(q.(upartType := UP_UNK))
  }

  /** q is read from one of these entries. */
  ghost predicate FromTable(es: seq<Entry>, ss: nat, probe: Part -> nat, q: Part) {
    exists i :: 0 <= i < |es| && Listed(es[i]) && q == PartOf(es[i], ss, i + 1, probe)
  }

  /** x is in the list, or the list has a partition of its place, size and kind. */
  ghost predicate Represented(list: seq<Part>, x: Part) {
    exists k :: 0 <= k < |list| && (list[k] == x ||
      (&& list[k].offset == x.offset && list[k].size == x.size
       && (list[k].upartType == x.upartType || x.upartType == UP_UNK)))
  }

  lemma AddedKeeps(list: seq<Part>, x: Part, y: Part)
    requires Represented(list, y) && forall q :: q in list ==> q.status != Deleted
    ensures Represented(Added(list, x).0, y)
  {
    var k :| 0 <= k < |list| && (list[k] == y ||
      (&& list[k].offset == y.offset && list[k].size == y.size
       && (list[k].upartType == y.upartType || y.upartType == UP_UNK)));
    assert list[k] in list;
    var (r, added) := Added(list, x);
    if added {
      var at := Position(list, x, false);
      assert r[if k < at then k else k + 1] == list[k];
    } else {
      assert forall i :: 0 <= i < |list| ==> list[i] in list;
      assert r == list;
    }
  }

  lemma AddedHas(list: seq<Part>, x: Part)
    requires forall q :: q in list ==> q.status != Deleted
    ensures Represented(Added(list, x).0, x)
    ensures forall q :: q in Added(list, x).0 ==> q == x || q in list
  {
    var at := Position(list, x, false);
    assert forall i :: 0 <= i < |list| ==> list[i] in list;
    if at < |list| && Duplicates(x, list[at]) {
      assert Added(list, x).0 == list;
      assert list[at].offset == x.offset;
    } else {
      InsertedElements(list, at, x);
      assert Added(list, x).0[at] == x;
    }
  }

  /** The list read so far: from the entries before the i-th, each of which is represented. */
  ghost predicate ReadSoFar(es: seq<Entry>, i: nat, ss: nat, probe: Part -> nat, list: seq<Part>) {
    && Ordered(list)
    && (forall q :: q in list ==> q.status != Deleted && FromTable(es, ss, probe, q))
    && forall k :: 0 <= k < i && k < |es| && Listed(es[k]) ==> Represented(list, PartOf(es[k], ss, k + 1, probe))
  }

  lemma OneEntry(es: seq<Entry>, i: nat, ss: nat, probe: Part -> nat, list: seq<Part>)
    requires i < |es| && ReadSoFar(es, i, ss, probe, list)
    ensures ReadSoFar(es, i + 1, ss, probe,
                      if Listed(es[i]) then Added(list, PartOf(es[i], ss, i + 1, probe)).0 else list)
  {
    hide Ordered, PartOf, Added, Represented, Position, Duplicates;
    if Listed(es[i]) {
      var x := PartOf(es[i], ss, i + 1, probe);
      assert x.status == Prim && FromTable(es, ss, probe, x) by {
        OnePart(es[i], ss, i + 1, probe);
      }
      AddedHas(list, x);
      AddedOrdered(list, x);
      forall k | 0 <= k < i && Listed(es[k])
        ensures Represented(Added(list, x).0, PartOf(es[k], ss, k + 1, probe))
      {
        AddedKeeps(list, x, PartOf(es[k], ss, k + 1, probe));
      }
    }
  }

  lemma OnePart(e: Entry, ss: nat, order: nat, probe: Part -> nat)
    requires Listed(e)
    ensures PartOf(e, ss, order, probe).status == Prim
  {
  }

  lemma AddedOrdered(list: seq<Part>, x: Part)
    requires Ordered(list)
    ensures Ordered(Added(list, x).0)
  {
    InsertKeepsOrder(list, x, false);
    var k := Position(list, x, false);
    if k < |list| && Duplicates(x, list[k]) {
      SameOrder(list, Added(list, x).0);
    }
  }

  lemma {:induction false} AllEntries(es: seq<Entry>, i: nat, ss: nat, probe: Part -> nat, list: seq<Part>)
    requires i <= |es| && ReadSoFar(es, i, ss, probe, list)
    ensures ReadSoFar(es, |es|, ss, probe, ReadEntries(es, i, ss, probe, list))
    decreases |es| - i
  {
    hide ReadSoFar, PartOf, Added;
    if i < |es| {
      OneEntry(es, i, ss, probe, list);
      AllEntries(es, i + 1, ss, probe, if Listed(es[i]) then Added(list, PartOf(es[i], ss, i + 1, probe)).0 else list);
    }
  }

  function SlotAt(table: nat, i: nat, size: nat): nat {
    MulNonNeg(i, size);
    table + i * size
  }

  /** The partitions are those of the entries in use, one for each place, in the order of the disk. */
  ghost predicate IsList(b: seq<byte>, table: nat, entries: nat, size: nat, ss: nat, probe: Part -> nat, r: seq<Part>)
    requires size >= 128 && table + entries * size <= |b|
  {
    EntriesInBounds(entries, size);
    && (forall i, k :: 0 <= i < k < |r| ==> r[i].offset <= r[k].offset)
    && (forall q :: q in r ==>
          exists i :: 0 <= i < entries && ListedAt(b, SlotAt(table, i, size))
                      && StandsFor(b, SlotAt(table, i, size), ss, i + 1, probe, q))
    && forall i :: 0 <= i < entries && ListedAt(b, SlotAt(table, i, size)) ==>
         exists q :: StandsFor(b, SlotAt(table, i, size), ss, i + 1, probe, q) && Represented(r, q)
  }

  /** The list of a table is that of its bytes. */
  lemma ListIs(b: seq<byte>, at: nat, entries: nat, size: nat, ss: nat, probe: Part -> nat)
    requires size >= 128 && 0 <= entries * size && at + entries * size <= |b|
    ensures var es := EntriesIn(b[at..at + entries * size], entries, size);
            IsList(b, at, entries, size, ss, probe, ReadEntries(es, 0, ss, probe, []))
  {
    hide EntriesIn, PartOf, ReadEntries, ListedAt, StandsFor, Represented;
    var table := b[at..at + entries * size];
    var es := EntriesIn(table, entries, size);
    EntriesInBounds(entries, size);
    AllEntries(es, 0, ss, probe, []);
    var r := ReadEntries(es, 0, ss, probe, []);
    forall i | 0 <= i < entries
      ensures Listed(es[i]) <==> ListedAt(b, SlotAt(at, i, size))
      ensures Listed(es[i]) ==> StandsFor(b, SlotAt(at, i, size), ss, i + 1, probe, PartOf(es[i], ss, i + 1, probe))
    {
      EntryHere(b, at, entries, size, i, ss, probe);
    }
    forall q | q in r
      ensures exists i :: 0 <= i < entries && ListedAt(b, SlotAt(at, i, size))
                          && StandsFor(b, SlotAt(at, i, size), ss, i + 1, probe, q)
    {
      var i :| 0 <= i < |es| && Listed(es[i]) && q == PartOf(es[i], ss, i + 1, probe);
      assert ListedAt(b, SlotAt(at, i, size));
    }
  }

  lemma EntryHere(b: seq<byte>, at: nat, entries: nat, size: nat, i: nat, ss: nat, probe: Part -> nat)
    requires size >= 128 && 0 <= entries * size && at + entries * size <= |b| && i < entries
    ensures SlotAt(at, i, size) + 128 <= |b|
    ensures var e := EntriesIn(b[at..at + entries * size], entries, size)[i];
            && (Listed(e) <==> ListedAt(b, SlotAt(at, i, size)))
            && (Listed(e) ==> StandsFor(b, SlotAt(at, i, size), ss, i + 1, probe, PartOf(e, ss, i + 1, probe)))
  {
    hide EntryOf, PartOf, Listed, ListedAt, StandsFor;
    EntriesInBounds(entries, size);
    var table, s := b[at..at + entries * size], SlotAt(at, i, size);
    Within(b, at, at + entries * size, i * size, i * size + 128);
    assert EntriesIn(table, entries, size)[i] == EntryOf(b[s..s + 128]);
    EntryAtPlace(b, s, ss, i + 1, probe);
  }

  lemma EntryAtPlace(b: seq<byte>, s: nat, ss: nat, order: nat, probe: Part -> nat)
    requires s + 128 <= |b|
    ensures var e := EntryOf(b[s..s + 128]);
            && (Listed(e) <==> ListedAt(b, s))
            && (Listed(e) ==> StandsFor(b, s, ss, order, probe, PartOf(e, ss, order, probe)))
  {
    hide FromLe, EntryOf, Decoded;
    var x := b[s..s + 128];
    EntryLayout(x);
    Within(b, s, s + 128, 0, 16);
    Within(b, s, s + 128, 16, 32);
    Within(b, s, s + 128, 32, 40);
    Within(b, s, s + 128, 40, 48);
    assert x[0..16] == x[..16];
    NameAt(b, s);
  }

  lemma NameAt(b: seq<byte>, s: nat)
    requires s + 128 <= |b|
    ensures seq(36, k requires 0 <= k < 36 => FromLe(b[s + 56 + 2 * k..s + 58 + 2 * k])) == EntryOf(b[s..s + 128]).name
  {
    hide FromLe, EntryOf;
    var x := b[s..s + 128];
    EntryLayout(x);
    var units := seq(36, k requires 0 <= k < 36 => FromLe(b[s + 56 + 2 * k..s + 58 + 2 * k]));
    forall k | 0 <= k < 36
      ensures units[k] == EntryOf(x).name[k]
    {
      Within(b, s, s + 128, 56 + 2 * k, 58 + 2 * k);
    }
  }

  /** The header in sector s names a table that is on the disk and has the checksum it says: the list is that of the
      bytes of the table.  Otherwise nothing is read. */
  ghost predicate ReadsTable(content: seq<byte>, s: seq<byte>, probe: Part -> nat, r: seq<Part>)
    requires 512 <= |s|
  {
    var entries, size, first := FromLe(s[80..84]), FromLe(s[84..88]), FromLe(s[72..80]);
    MulNonNeg(entries, size);
    MulNonNeg(first, |s|);
    var table := first * |s| % WORD64;
    if table + entries * size > |content| || Checksum(content[table..table + entries * size]) != FromLe(s[88..92]) then
      r == []
    else size >= 128 && IsList(content, table, entries, size, |s|, probe, r)
  }

  /** What read_part_gpt_aux makes of any disk: nothing without a header that passes the checks. */
  lemma ReaderSees(content: seq<byte>, ss: nat, lba: nat, probe: Part -> nat)
    requires 512 <= ss
    ensures 0 <= lba * ss
    ensures var r := ReadAt(content, ss, lba, probe);
            if lba * ss + ss > |content| || !HeaderOk(content[lba * ss..lba * ss + ss], lba) then r == []
            else ReadsTable(content, content[lba * ss..lba * ss + ss], probe, r)
  {
    hide HeaderOf, HeaderOk, Checksum, FromLe, EntriesIn, ReadEntries, IsList;
    MulNonNeg(lba, ss);
    if lba * ss + ss <= |content| && HeaderOk(content[lba * ss..lba * ss + ss], lba) {
      var s := content[lba * ss..lba * ss + ss];
      HeaderLayout(s);
      HeaderChecks(s, lba);
      var entries, size, first := FromLe(s[80..84]), FromLe(s[84..88]), FromLe(s[72..80]);
      MulNonNeg(entries, size);
      MulNonNeg(first, |s|);
      var table := first * |s| % WORD64;
      if table + entries * size <= |content| {
        ListIs(content, table, entries, size, ss, probe);
      }
    }
  }
}
