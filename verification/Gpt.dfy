/** The GUID partition table on disk: src/disk/partgptw.c:82-113 and 208-298, src/disk/partgpt.c:169-320,
    src/disk/partgpt.h, sections 5.2.3 and 5.3 of the UEFI Specification. */
module Gpt {
  import opened Arith
  import opened Disks
  import opened LittleEndian
  import Crc

  // ----- layout of a header and of an entry -----

  /** "EFI PART" */
  const SIGNATURE: seq<byte> := [69, 70, 73, 32, 80, 65, 82, 84]
  const REVISION: nat := 0x0001_0000
  const HEADER_SIZE: nat := 92
  const ENTRY_COUNT: nat := 128
  const ENTRY_SIZE: nat := 128
  const TABLE_SIZE: nat := 16384
  const NAME_UNITS: nat := 36
  const GUID_SIZE: nat := 16

  datatype Header = Header(revision: nat, size: nat, crcSelf: nat, reserved: nat, lbaSelf: nat, lbaAlt: nat,
                           lbaStart: nat,
                           lbaEnd: nat, guid: seq<byte>, lbaTable: nat, entries: nat, entrySize: nat, crcTable: nat)

  const WIDTHS_BEFORE: seq<nat> := [4, 4, 4, 4, 8, 8, 8, 8]
  const WIDTHS_AFTER: seq<nat> := [8, 4, 4, 4]

  function FieldsBefore(h: Header): seq<Field> {
    [Field(4, h.revision), Field(4, h.size), Field(4, h.crcSelf), Field(4, h.reserved), Field(8, h.lbaSelf),
     Field(8, h.lbaAlt),
     Field(8, h.lbaStart), Field(8, h.lbaEnd)]
  }

  function FieldsAfter(h: Header): seq<Field> {
    [Field(8, h.lbaTable), Field(4, h.entries), Field(4, h.entrySize), Field(4, h.crcTable)]
  }

  /** The 92 bytes of a header. */
  function HeaderBytes(h: Header): seq<byte> {
    SIGNATURE + Pack(FieldsBefore(h)) + h.guid + Pack(FieldsAfter(h))
  }

  /** The header at the start of a sector. */
  function HeaderOf(sector: seq<byte>): Header
    requires |sector| >= HEADER_SIZE
  {
    HeaderWidths();
    var b := Unpack(WIDTHS_BEFORE, sector[8..56]);
    var a := Unpack(WIDTHS_AFTER, sector[72..92]);
    Header(b[0], b[1], b[2], b[3], b[4], b[5], b[6], b[7], sector[56..72], a[0], a[1], a[2], a[3])
  }

  lemma HeaderWidths()
    ensures Total(WIDTHS_BEFORE) == 48 && Total(WIDTHS_AFTER) == 20
  {
    TotalOfFour(4, 4, 4, 4);
    TotalOfFour(8, 8, 8, 8);
    TotalOfFour(8, 4, 4, 4);
    TotalConcat([4, 4, 4, 4], [8, 8, 8, 8]);
    assert WIDTHS_BEFORE == [4, 4, 4, 4] + [8, 8, 8, 8];
  }

  /** Where the header's fields are: section 5.3.2 of the UEFI Specification. */
  lemma HeaderLayout(sector: seq<byte>)
    requires |sector| >= HEADER_SIZE
    ensures var h := HeaderOf(sector);
            && h.revision == FromLe(sector[8..12]) && h.size == FromLe(sector[12..16])
            && h.crcSelf == FromLe(sector[16..20]) && h.reserved == FromLe(sector[20..24])
            && h.lbaSelf == FromLe(sector[24..32]) && h.lbaAlt == FromLe(sector[32..40])
            && h.lbaStart == FromLe(sector[40..48]) && h.lbaEnd == FromLe(sector[48..56])
            && h.guid == sector[56..72] && h.lbaTable == FromLe(sector[72..80])
            && h.entries == FromLe(sector[80..84]) && h.entrySize == FromLe(sector[84..88])
            && h.crcTable == FromLe(sector[88..92])
  {
    HeaderWidths();
    var b, a := sector[8..56], sector[72..92];
    FieldsBeforeAt(b);
    FieldsAfterAt(a);
    hide FromLe, Unpack, Total;
    Within(sector, 8, 56, 0, 4);
    Within(sector, 8, 56, 4, 8);
    Within(sector, 8, 56, 8, 12);
    Within(sector, 8, 56, 12, 16);
    Within(sector, 8, 56, 16, 24);
    Within(sector, 8, 56, 24, 32);
    Within(sector, 8, 56, 32, 40);
    Within(sector, 8, 56, 40, 48);
    Within(sector, 72, 92, 0, 8);
    Within(sector, 72, 92, 8, 12);
    Within(sector, 72, 92, 12, 16);
    Within(sector, 72, 92, 16, 20);
    assert b[0..4] == b[..4] && a[0..8] == a[..8];
  }

  lemma FieldsBeforeAt(b: seq<byte>)
    requires |b| == 48
    ensures Total(WIDTHS_BEFORE) == 48
    ensures Unpack(WIDTHS_BEFORE, b)
            == [FromLe(b[..4]), FromLe(b[4..8]), FromLe(b[8..12]), FromLe(b[12..16]), FromLe(b[16..24]),
                FromLe(b[24..32]), FromLe(b[32..40]), FromLe(b[40..48])]
  {
    hide FromLe, Unpack, Total;
    HeaderWidths();
    var ws := WIDTHS_BEFORE;
    TotalNone(ws);
    assert b[0..4] == b[..4];
    TotalNext(ws, 0);
    TotalNext(ws, 1);
    TotalNext(ws, 2);
    TotalNext(ws, 3);
    TotalNext(ws, 4);
    TotalNext(ws, 5);
    TotalNext(ws, 6);
    UnpackAt(ws, b, 0);
    UnpackAt(ws, b, 1);
    UnpackAt(ws, b, 2);
    UnpackAt(ws, b, 3);
    UnpackAt(ws, b, 4);
    UnpackAt(ws, b, 5);
    UnpackAt(ws, b, 6);
    UnpackAt(ws, b, 7);
  }

  lemma FieldsAfterAt(a: seq<byte>)
    requires |a| == 20
    ensures Total(WIDTHS_AFTER) == 20
    ensures Unpack(WIDTHS_AFTER, a) == [FromLe(a[..8]), FromLe(a[8..12]), FromLe(a[12..16]), FromLe(a[16..20])]
  {
    hide FromLe, Unpack, Total;
    HeaderWidths();
    var ws := WIDTHS_AFTER;
    TotalNone(ws);
    assert a[0..8] == a[..8];
    TotalNext(ws, 0);
    TotalNext(ws, 1);
    TotalNext(ws, 2);
    UnpackAt(ws, a, 0);
    UnpackAt(ws, a, 1);
    UnpackAt(ws, a, 2);
    UnpackAt(ws, a, 3);
  }

  ghost predicate FitsHeader(h: Header) {
    && h.revision < Limit(4) && h.size < Limit(4) && h.crcSelf < Limit(4) && h.reserved < Limit(4)
    && h.lbaSelf < Limit(8)
    && h.lbaAlt < Limit(8) && h.lbaStart < Limit(8) && h.lbaEnd < Limit(8) && |h.guid| == GUID_SIZE
    && h.lbaTable < Limit(8)
    && h.entries < Limit(4) && h.entrySize < Limit(4) && h.crcTable < Limit(4)
  }

  lemma HeaderHolds(h: Header)
    requires FitsHeader(h)
    ensures Holds(FieldsBefore(h), WIDTHS_BEFORE,
                  [h.revision, h.size, h.crcSelf, h.reserved, h.lbaSelf, h.lbaAlt, h.lbaStart, h.lbaEnd])
    ensures Holds(FieldsAfter(h), WIDTHS_AFTER, [h.lbaTable, h.entries, h.entrySize, h.crcTable])
  {
    hide Limit;
  }

  lemma HeaderRoundTrip(h: Header, rest: seq<byte>)
    requires FitsHeader(h)
    ensures |HeaderBytes(h)| == HEADER_SIZE && HeaderOf(HeaderBytes(h) + rest) == h
    ensures (HeaderBytes(h) + rest)[..8] == SIGNATURE
  {
    hide Pack, Unpack, Total, Limit;
    HeaderHolds(h);
    HeaderWidths();
    UnpackOfPack(FieldsBefore(h), WIDTHS_BEFORE,
                 [h.revision, h.size, h.crcSelf, h.reserved, h.lbaSelf, h.lbaAlt, h.lbaStart, h.lbaEnd], []);
    UnpackOfPack(FieldsAfter(h), WIDTHS_AFTER, [h.lbaTable, h.entries, h.entrySize, h.crcTable], []);
    var b, a := Pack(FieldsBefore(h)), Pack(FieldsAfter(h));
    assert b + [] == b && a + [] == a;
    HeaderPieces(SIGNATURE, b, h.guid, a, rest);
  }

  lemma HeaderPieces(sig: seq<byte>, b: seq<byte>, guid: seq<byte>, a: seq<byte>, rest: seq<byte>)
    requires |sig| == 8 && |b| == 48 && |guid| == 16 && |a| == 20
    ensures var s := sig + b + guid + a + rest;
            && s[..8] == sig && s[8..56] == b && s[56..72] == guid && s[72..92] == a && s[..92] == sig + b + guid + a
  {
  }

  datatype Entry = Entry(typeGuid: seq<byte>, uuid: seq<byte>, lbaStart: nat, lbaEnd: nat, attr: nat, name: seq<nat>)

  const ENTRY_WIDTHS: seq<nat> := [8, 8, 8]

  function LbaFields(e: Entry): seq<Field> {
    [Field(8, e.lbaStart), Field(8, e.lbaEnd), Field(8, e.attr)]
  }

  function UnitFields(units: seq<nat>): (fs: seq<Field>)
    ensures |fs| == |units|
  {
    seq(|units|, i requires 0 <= i < |units| => Field(2, units[i]))
  }

  /** struct gpt_ent */
  function EntryBytes(e: Entry): seq<byte> {
    e.typeGuid + e.uuid + Pack(LbaFields(e)) + Pack(UnitFields(e.name))
  }

  function EntryOf(b: seq<byte>): Entry
    requires |b| == ENTRY_SIZE
  {
    EntryWidths();
    var v := Unpack(ENTRY_WIDTHS, b[32..56]);
    Entry(b[..16], b[16..32], v[0], v[1], v[2], Unpack(seq(NAME_UNITS, _ => 2), b[56..128]))
  }

  lemma EntryWidths()
    ensures Total(ENTRY_WIDTHS) == 24 && Total(seq(NAME_UNITS, _ => 2)) == 72
  {
    TotalOfThree(8, 8, 8);
    TotalOfTwos(NAME_UNITS);
  }

  /** Where the fields of an entry are: section 5.3.3 of the UEFI Specification. */
  lemma EntryLayout(b: seq<byte>)
    requires |b| == ENTRY_SIZE
    ensures var e := EntryOf(b);
            && e.typeGuid == b[..16] && e.uuid == b[16..32] && e.lbaStart == FromLe(b[32..40])
            && e.lbaEnd == FromLe(b[40..48]) && e.attr == FromLe(b[48..56])
            && |e.name| == NAME_UNITS
            && forall k :: 0 <= k < NAME_UNITS ==> e.name[k] == FromLe(b[56 + 2 * k..58 + 2 * k])
  {
    hide Unpack, Total, FromLe;
    EntryWidths();
    var lbas, units, twos := b[32..56], b[56..128], seq(NAME_UNITS, _ => 2);
    LbasAt(lbas);
    Within(b, 32, 56, 0, 8);
    Within(b, 32, 56, 8, 16);
    Within(b, 32, 56, 16, 24);
    assert lbas[0..8] == lbas[..8];
    forall k | 0 <= k < NAME_UNITS
      ensures EntryOf(b).name[k] == FromLe(b[56 + 2 * k..58 + 2 * k])
    {
      UnpackAt(twos, units, k);
      assert twos[..k] == seq(k, _ => 2);
      TotalOfTwos(k);
      Within(b, 56, 128, 2 * k, 2 * k + 2);
    }
  }

  lemma LbasAt(b: seq<byte>)
    requires |b| == 24
    ensures Total(ENTRY_WIDTHS) == 24
    ensures Unpack(ENTRY_WIDTHS, b) == [FromLe(b[..8]), FromLe(b[8..16]), FromLe(b[16..24])]
  {
    hide FromLe, Unpack, Total;
    EntryWidths();
    var ws := ENTRY_WIDTHS;
    TotalNone(ws);
    assert b[0..8] == b[..8];
    TotalNext(ws, 0);
    TotalNext(ws, 1);
    UnpackAt(ws, b, 0);
    UnpackAt(ws, b, 1);
    UnpackAt(ws, b, 2);
  }

  lemma {:induction false} TotalOfTwos(n: nat)
    ensures Total(seq(n, _ => 2)) == 2 * n
  {
    if n > 0 {
      TotalOfTwos(n - 1);
      assert seq(n, _ => 2)[1..] == seq(n - 1, _ => 2);
    }
  }

  ghost predicate FitsEntry(e: Entry) {
    && |e.typeGuid| == GUID_SIZE && |e.uuid| == GUID_SIZE && e.lbaStart < Limit(8) && e.lbaEnd < Limit(8)
    && e.attr < Limit(8)
    && |e.name| == NAME_UNITS && forall i :: 0 <= i < |e.name| ==> e.name[i] < Limit(2)
  }

  lemma EntryHolds(e: Entry)
    requires FitsEntry(e)
    ensures Holds(LbaFields(e), ENTRY_WIDTHS, [e.lbaStart, e.lbaEnd, e.attr])
    ensures Holds(UnitFields(e.name), seq(NAME_UNITS, _ => 2), e.name)
  {
  }

  lemma EntryRoundTrip(e: Entry)
    requires FitsEntry(e)
    ensures |EntryBytes(e)| == ENTRY_SIZE && EntryOf(EntryBytes(e)) == e
  {
    hide Pack, Unpack, Total, Limit, LbaFields, UnitFields;
    EntryHolds(e);
    EntryWidths();
    UnpackOfPack(LbaFields(e), ENTRY_WIDTHS, [e.lbaStart, e.lbaEnd, e.attr], []);
    UnpackOfPack(UnitFields(e.name), seq(NAME_UNITS, _ => 2), e.name, []);
    var l, n := Pack(LbaFields(e)), Pack(UnitFields(e.name));
    assert l + [] == l && n + [] == n;
    var b := EntryBytes(e);
    assert b[..16] == e.typeGuid && b[16..32] == e.uuid && b[32..56] == l && b[56..128] == n;
  }

  // ----- the table -----

  function TableBytes(es: seq<Entry>): seq<byte> {
    if |es| == 0 then [] else EntryBytes(es[0]) + TableBytes(es[1..])
  }

  /** The fixed-size parts of an entry have their size. */
  predicate Shaped(e: Entry) {
    |e.typeGuid| == GUID_SIZE == |e.uuid| && |e.name| == NAME_UNITS
  }

  lemma EntrySize(e: Entry)
    requires Shaped(e)
    ensures |EntryBytes(e)| == ENTRY_SIZE
  {
    hide Pack, Total;
    EntryWidths();
    PackLength(LbaFields(e), ENTRY_WIDTHS);
    PackLength(UnitFields(e.name), seq(NAME_UNITS, _ => 2));
  }

  lemma {:induction false} TableSize(es: seq<Entry>)
    requires forall k :: 0 <= k < |es| ==> Shaped(es[k])
    ensures |TableBytes(es)| == ENTRY_SIZE * |es|
    decreases |es|
  {
    hide EntryBytes;
    if |es| > 0 {
      EntrySize(es[0]);
      TableSize(es[1..]);
    }
  }

  /** The i-th entry of a table of entries of `size` bytes. */
  function EntryAt(table: seq<byte>, i: nat, size: nat): Entry
    requires size >= ENTRY_SIZE && i * size + ENTRY_SIZE <= |table|
  {
    MulNonNeg(i, size);
    EntryOf(table[i * size..i * size + ENTRY_SIZE])
  }

  lemma {:induction false} TableRoundTrip(es: seq<Entry>, i: nat)
    requires i < |es| && forall k :: 0 <= k < |es| ==> FitsEntry(es[k])
    ensures |TableBytes(es)| == ENTRY_SIZE * |es| && EntryAt(TableBytes(es), i, ENTRY_SIZE) == es[i]
    decreases |es|
  {
    hide EntryBytes, EntryOf, FitsEntry;
    var t := TableBytes(es);
    EntryRoundTrip(es[0]);
    if |es| == 1 {
      assert TableBytes(es[1..]) == [];
      assert t[..ENTRY_SIZE] == EntryBytes(es[0]);
    } else if i == 0 {
      TableRoundTrip(es[1..], 0);
      assert t[..ENTRY_SIZE] == EntryBytes(es[0]);
    } else {
      TableRoundTrip(es[1..], i - 1);
      var a := (i - 1) * ENTRY_SIZE;
      assert t[a + ENTRY_SIZE..a + 2 * ENTRY_SIZE] == TableBytes(es[1..])[a..a + ENTRY_SIZE];
    }
  }

  // ----- checksums -----

  /** get_crc32(b, |b|, 0xFFFFFFFF) ^ 0xFFFFFFFF, as a number. */
  function Checksum(b: seq<byte>): (r: nat)
    ensures r < 0x1_0000_0000
  {
    WordIsNumber(Crc.Crc32(b));
    Crc.Crc32(b) as int
  }

  lemma WordIsNumber(a: bv32)
    ensures 0 <= a as int < 0x1_0000_0000 && (a as int) as bv32 == a
  {
  }

  /** The register that starts with all bits set, complemented. */
  lemma ChecksumIs(b: seq<byte>)
    ensures Checksum(b) as bv32 == Crc.Crc(b, 0xFFFF_FFFF) ^ 0xFFFF_FFFF
  {
    hide Crc.Crc;
    WordIsNumber(Crc.Crc32(b));
  }

  /** A changed byte changes the checksum. */
  lemma ChecksumOfChange(b: seq<byte>, k: nat, x: byte)
    requires k < |b| && x != b[k]
    ensures Checksum(b[k := x]) != Checksum(b)
  {
    hide Crc.Crc;
    var c, d := Crc.Crc32(b), Crc.Crc32(b[k := x]);
    Crc.OneByteChangesCrc(b, k, x, 0xFFFF_FFFF);
    assert c != d;
    WordIsNumber(c);
    WordIsNumber(d);
  }
}
