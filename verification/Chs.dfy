/** Disk geometry and MBR partition entries: src/disk/fnctdsk.c:54-79 and src/disk/parti386.c:74-91, 263-298,
    935-1052. */
module Chs {
  import opened Arith
  import opened Disks
  import opened LittleEndian
  import opened Partitions

  datatype Geometry = Geometry(cylinders: nat, heads: nat, sectors: nat, sectorSize: nat)

  datatype CHS = CHS(cylinder: int, head: nat, sector: nat)

  /** What a geometry must be for the divisions below. */
  predicate Usable(g: Geometry) {
    g.heads > 0 && g.sectors > 0 && g.sectorSize > 0
  }

  // ----- sectors and cylinder/head/sector -----

  /** offset2CHS, for the sector number of the offset. */
  function ToChs(g: Geometry, lba: nat): (r: CHS)
    requires Usable(g)
  {
    CHS(lba / g.sectors / g.heads, lba / g.sectors % g.heads, lba % g.sectors + 1)
  }

  function OffsetToChs(g: Geometry, offset: nat): CHS
    requires Usable(g)
  {
    ToChs(g, offset / g.sectorSize)
  }

  /** C_H_S2LBA */
  function ToLba(g: Geometry, c: CHS): int {
    (c.cylinder * g.heads + c.head) * g.sectors + c.sector - 1
  }

  /** CHS2offset, in 64-bit arithmetic. */
  function ChsToOffset(g: Geometry, c: CHS): (r: nat)
  {
    ToLba(g, c) * g.sectorSize % WORD64
  }

  /** Both conversions of a sector number, and where its parts lie. */
  lemma ChsRoundTrip(g: Geometry, lba: nat)
    requires Usable(g)
    ensures var c := ToChs(g, lba);
            ToLba(g, c) == lba && 0 <= c.cylinder && c.head < g.heads && 1 <= c.sector <= g.sectors
  {
    var track := lba / g.sectors;
    assert lba == track * g.sectors + lba % g.sectors;
    assert track == track / g.heads * g.heads + track % g.heads;
    DivNonNeg(track, g.heads);
  }

  /** Two addresses within the geometry that name the same sector are the same. */
  lemma LbaRoundTrip(g: Geometry, c: CHS)
    requires Usable(g) && 0 <= c.cylinder && c.head < g.heads && 1 <= c.sector <= g.sectors
    ensures ToLba(g, c) >= 0 && ToChs(g, ToLba(g, c)) == c
  {
    var track := c.cylinder * g.heads + c.head;
    MulNonNeg(c.cylinder, g.heads);
    MulNonNeg(track, g.sectors);
    DivModUnique(ToLba(g, c), track, g.sectors, c.sector - 1);
    DivModUnique(track, c.cylinder, g.heads, c.head);
  }

  // ----- partition table entries -----

  /** struct partition_dos; the two 4-byte numbers are kept as numbers. */
  datatype DosEntry = DosEntry(bootInd: byte, head: byte, sector: byte, cyl: byte, sysInd: byte, endHead: byte,
                               endSector: byte,
                               endCyl: byte, start: nat, count: nat)

  const ENTRY_SIZE: nat := 16

  function EntryBytes(e: DosEntry): (b: seq<byte>)
    ensures |b| == ENTRY_SIZE
  {
    [e.bootInd, e.head, e.sector, e.cyl, e.sysInd, e.endHead, e.endSector, e.endCyl] + Le(4, e.start) + Le(4, e.count)
  }

  function EntryOf(b: seq<byte>): DosEntry
    requires |b| == ENTRY_SIZE
  {
    DosEntry(b[0], b[1], b[2], b[3], b[4], b[5], b[6], b[7], FromLe(b[8..12]), FromLe(b[12..16]))
  }

  const MAX32: nat := 0xFFFF_FFFF

  /** store4_little_endian and read4_little_endian. */
  lemma EntryBytesRoundTrip(e: DosEntry)
    requires e.start <= MAX32 && e.count <= MAX32
    ensures EntryOf(EntryBytes(e)) == e
  {
    hide Le, FromLe, Limit;
    Limits();
    LeRoundTrip(4, e.start);
    LeRoundTrip(4, e.count);
    var b := EntryBytes(e);
    assert b[8..12] == Le(4, e.start) && b[12..16] == Le(4, e.count);
  }

  /** The bitwise or of two numbers below 4. */
  function Or2(a: nat, b: nat): nat {
    (if a % 2 == 1 || b % 2 == 1 then 1 else 0) + if a / 2 == 1 || b / 2 == 1 then 2 else 0
  }

  /** (sector | ((cylinder >> 8) << 6)) & 0xff */
  function SectorByte(sector: nat, cylinder: nat): byte {
    sector % 64 + 64 * Or2(sector / 64 % 4, cylinder / 256 % 4)
  }

  /** s_cyl and e_cyl */
  function CylinderOf(cyl: byte, sector: byte): nat {
    cyl + 256 * (sector / 64)
  }

  /** s_sect and e_sect */
  function SectorOf(sector: byte): nat {
    sector % 64
  }

  /** Ten bits of cylinder and six of sector share two bytes. */
  lemma PackedCylinder(sector: nat, cylinder: nat)
    requires sector < 64 && cylinder < 1024
    ensures CylinderOf(cylinder % 256, SectorByte(sector, cylinder)) == cylinder
    ensures SectorOf(SectorByte(sector, cylinder)) == sector
  {
    assert Or2(0, cylinder / 256) == cylinder / 256;
  }

  const LAST_CYLINDER: nat := 1023

  function Clamp32(n: nat): nat {
    if n <= MAX32 then n else MAX32
  }

  /** What an entry says of an address past cylinder 1023. */
  function Clipped(g: Geometry, c: CHS): CHS
    requires g.heads > 0
  {
    if c.cylinder > LAST_CYLINDER then CHS(LAST_CYLINDER, g.heads - 1, g.sectors) else c
  }

  /** The address stored for an offset. */
  function Stored(g: Geometry, offset: nat): (c: CHS)
    requires Usable(g)
    ensures 0 <= c.cylinder
  {
    ChsRoundTrip(g, offset / g.sectorSize);
    Clipped(g, OffsetToChs(g, offset))
  }

  /** partition2_i386_entry, for a table at position `pos`. */
  function ToEntry(g: Geometry, pos: nat, p: Part): DosEntry
    requires Usable(g)
  {
    hide Minus;
    var last := Minus(p.End(), g.sectorSize);
    var start, end := Stored(g, p.offset), Stored(g, last);
    DosEntry(if p.status == PrimBoot then 0x80 else 0, start.head % 256, SectorByte(start.sector, start.cylinder),
             start.cylinder % 256,
             p.typeI386 % 256, end.head % 256, SectorByte(end.sector, end.cylinder), end.cylinder % 256,
             Clamp32(Quotient(Minus(p.offset, pos), g.sectorSize)), Clamp32(Quotient(p.size, g.sectorSize)))
  }

  predicate IsExtended(typeI386: nat) {
    typeI386 in {0x05, 0x0f, 0x85}
  }

  /** An address that cannot be what the LBA fields say. */
  predicate Mismatch(g: Geometry, stored: CHS, offset: nat)
    requires Usable(g)
  {
    var actual := OffsetToChs(g, offset);
    if actual.cylinder <= LAST_CYLINDER then ToLba(g, stored) * g.sectorSize != offset
    else stored.cylinder != LAST_CYLINDER && stored.cylinder != actual.cylinder % 1024
  }

  /** The first of the checks of i386_entry2partition that fails. */
  function ChsError(g: Geometry, start: CHS, end: CHS, offset: nat, last: nat): Errcode
    requires Usable(g)
  {
    if start.sector == 0 || start.sector > g.sectors then BadSS
    else if end.sector == 0 || end.sector > g.sectors then BadES
    else if start.head >= g.heads then BadSH
    else if start.cylinder >= g.cylinders then BadSC
    else if end.head >= g.heads then BadEH
    else if end.cylinder >= g.cylinders then BadEC
    else if Mismatch(g, start, offset) then BadRS
    else if Mismatch(g, end, last) then BadSCount
    else BadNoErr
  }

  /** i386_entry2partition without the filesystem probe, for a table at `base`. */
  function FromEntry(g: Geometry, base: nat, e: DosEntry, status: Status, order: nat): Part
    requires Usable(g)
  {
    var offset := base + e.start * g.sectorSize;
    var size := e.count * g.sectorSize;
    MulNonNeg(e.start, g.sectorSize);
    MulNonNeg(e.count, g.sectorSize);
    var start := CHS(CylinderOf(e.cyl, e.sector), e.head, SectorOf(e.sector));
    var end := CHS(CylinderOf(e.endCyl, e.endSector), e.endHead, SectorOf(e.endSector));
    BLANK.(offset := offset, size := size, typeI386 := e.sysInd, order := order,
           status := if status != Prim then status
                     else if IsExtended(e.sysInd) then Ext
                     else if e.bootInd != 0 then PrimBoot
                     else Prim,
           errcode := ChsError(g, start, end, offset, (offset + size - g.sectorSize) % WORD64))
  }

  // ----- round trip -----

  /** A geometry whose addresses fit an entry. */
  predicate Classic(g: Geometry) {
    Usable(g) && g.heads <= 256 && g.sectors <= 63
  }

  /** A partition of whole sectors, inside the disk, whose 32-bit fields do not overflow. */
  ghost predicate Fits(g: Geometry, pos: nat, p: Part)
    requires Usable(g)
  {
    && pos <= p.offset && p.offset % g.sectorSize == 0 && pos % g.sectorSize == 0
    && p.size > 0 && p.size % g.sectorSize == 0
    && (p.offset - pos) / g.sectorSize <= MAX32 && p.size / g.sectorSize <= MAX32
    && p.End() <= WORD64 && OffsetToChs(g, p.End() - 1).cylinder < g.cylinders
    && 0 < p.typeI386 < 256
  }

  /** The address stored for a sector of the disk passes every check, below and above cylinder 1023. */
  lemma StoredAddress(g: Geometry, offset: nat)
    requires Classic(g) && offset % g.sectorSize == 0
    ensures var c := Clipped(g, OffsetToChs(g, offset));
            && 0 <= c.cylinder <= LAST_CYLINDER && c.head < g.heads && 1 <= c.sector <= g.sectors
            && CylinderOf(c.cylinder % 256, SectorByte(c.sector, c.cylinder)) == c.cylinder
            && SectorOf(SectorByte(c.sector, c.cylinder)) == c.sector && c.head % 256 == c.head
            && !Mismatch(g, c, offset) && c.cylinder <= OffsetToChs(g, offset).cylinder
  {
    hide ToChs, ToLba, SectorByte;
    var lba := offset / g.sectorSize;
    assert offset == lba * g.sectorSize;
    ChsRoundTrip(g, lba);
    var c := Clipped(g, OffsetToChs(g, offset));
    PackedCylinder(c.sector, c.cylinder);
  }

  /** Cylinders grow with the offset. */
  lemma CylinderMonotone(g: Geometry, a: nat, b: nat)
    requires Usable(g) && a <= b
    ensures OffsetToChs(g, a).cylinder <= OffsetToChs(g, b).cylinder
  {
    DivMonotone(a, b, g.sectorSize);
    DivMonotone(a / g.sectorSize, b / g.sectorSize, g.sectors);
    DivMonotone(a / g.sectorSize / g.sectors, b / g.sectorSize / g.sectors, g.heads);
  }

  lemma DivMonotone(a: nat, b: nat, d: nat)
    requires d > 0 && a <= b
    ensures a / d <= b / d
  {
    var k := b / d - a / d;
    assert a == a / d * d + a % d && b == b / d * d + b % d;
    assert k * d == b - a - b % d + a % d;
    MulAtLeast(k, d);
  }

  /** Decoding the entry written for a partition gives the partition back, with no error. */
  lemma EntryRoundTrip(g: Geometry, pos: nat, p: Part, status: Status, order: nat)
    requires Classic(g) && Fits(g, pos, p)
    ensures g.sectorSize <= p.size
    ensures var q := FromEntry(g, pos, ToEntry(g, pos, p), status, order);
            && q.offset == p.offset && q.size == p.size && q.typeI386 == p.typeI386 && q.order == order
            && q.errcode == BadNoErr
            && q.status == if status != Prim then status
                           else if IsExtended(p.typeI386) then Ext
                           else if p.status == PrimBoot then PrimBoot
                           else Prim
  {
    hide ToChs, ToLba, SectorByte, CylinderOf, SectorOf, Mismatch, Clipped;
    var ss := g.sectorSize;
    AtLeastOneSector(p.size, ss);
    var last := p.offset + p.size - ss;
    ModAdd(p.offset, p.size, ss);
    ModAdd(p.offset, pos, ss);
    ModOfMultiple(1, ss);
    ModAdd(p.offset + p.size, ss, ss);
    StoredAddress(g, p.offset);
    StoredAddress(g, last);
    CylinderMonotone(g, p.offset, p.End() - 1);
    CylinderMonotone(g, last, p.End() - 1);
    WholeMultiple(p.offset - pos, ss);
    WholeMultiple(p.size, ss);
    SmallMod(last, WORD64);
    SmallMod(p.offset - pos, WORD64);
  }

  lemma AtLeastOneSector(size: nat, ss: nat)
    requires ss > 0 && size > 0 && size % ss == 0
    ensures ss <= size
  {
    MultiplesApart(0, size, ss);
  }

  // ----- any entry -----

  /** The address is that of the byte at `offset`, inside the geometry.  Past cylinder 1023 only the cylinder is looked
      at: it is 1023, or what ten bits keep of the true one. */
  predicate Addresses(g: Geometry, cylinder: nat, head: nat, sector: nat, offset: nat)
    requires Usable(g)
  {
    var track := offset / g.sectorSize / g.sectors;
    && cylinder < g.cylinders && head < g.heads && 1 <= sector <= g.sectors
    && if track / g.heads <= 1023 then
         && offset % g.sectorSize == 0 && cylinder == track / g.heads && head == track % g.heads
         && sector == offset / g.sectorSize % g.sectors + 1
       else cylinder == 1023 || cylinder == track / g.heads % 1024
  }

  lemma AddressesIff(g: Geometry, c: CHS, offset: nat)
    requires Usable(g) && c.cylinder >= 0
    ensures Addresses(g, c.cylinder, c.head, c.sector, offset) <==>
              && c.cylinder < g.cylinders && c.head < g.heads && 1 <= c.sector <= g.sectors
              && !Mismatch(g, c, offset)
  {
    var lba, ss := offset / g.sectorSize, g.sectorSize;
    hide ToLba;
    ChsRoundTrip(g, lba);
    if c.head < g.heads && 1 <= c.sector <= g.sectors {
      LbaRoundTrip(g, c);
      ModOfMultiple(ToLba(g, c), ss);
      WholeSectors(offset, ss);
    }
  }

  lemma WholeSectors(offset: nat, ss: nat)
    requires ss > 0
    ensures offset == offset / ss * ss <==> offset % ss == 0
  {
  }

  /** Any entry.  It is decoded without an error exactly when it gives the addresses of its first and its last sector;
      else the error is that of the first check that fails. */
  lemma DecodedEntry(g: Geometry, base: nat, e: DosEntry, status: Status, order: nat)
    requires Usable(g)
    ensures 0 <= base + e.start * g.sectorSize
    ensures var cyl, sector := e.cyl + 256 * (e.sector / 64), e.sector % 64;
            var endCyl, endSector := e.endCyl + 256 * (e.endSector / 64), e.endSector % 64;
            var offset := base + e.start * g.sectorSize;
            var last := (offset + e.count * g.sectorSize - g.sectorSize) % WORD64;
            var p := FromEntry(g, base, e, status, order);
            var error := p.errcode;
            && p.offset == offset && p.size == e.count * g.sectorSize && p.typeI386 == e.sysInd && p.order == order
            && p.status == (if status != Prim then status
                            else if e.sysInd == 0x05 || e.sysInd == 0x0f || e.sysInd == 0x85 then Ext
                            else if e.bootInd != 0 then PrimBoot
                            else Prim)
            && (error == BadNoErr <==>
                  Addresses(g, cyl, e.head, sector, offset) && Addresses(g, endCyl, e.endHead, endSector, last))
            && (error != BadNoErr ==>
                  error == if sector == 0 || sector > g.sectors then BadSS
                           else if endSector == 0 || endSector > g.sectors then BadES
                           else if e.head >= g.heads then BadSH
                           else if cyl >= g.cylinders then BadSC
                           else if e.endHead >= g.heads then BadEH
                           else if endCyl >= g.cylinders then BadEC
                           else if !Addresses(g, cyl, e.head, sector, offset) then BadRS
                           else BadSCount)
  {
    hide ToChs, ToLba, Mismatch, Addresses;
    MulNonNeg(e.start, g.sectorSize);
    MulNonNeg(e.count, g.sectorSize);
    var offset := base + e.start * g.sectorSize;
    var last := (offset + e.count * g.sectorSize - g.sectorSize) % WORD64;
    AddressesIff(g, CHS(CylinderOf(e.cyl, e.sector), e.head, SectorOf(e.sector)), offset);
    AddressesIff(g, CHS(CylinderOf(e.endCyl, e.endSector), e.endHead, SectorOf(e.endSector)), last);
  }

  /** The sixteen bytes of an entry. */
  lemma EntryLayout(b: seq<byte>)
    requires |b| == 16
    ensures EntryOf(b) == DosEntry(b[0], b[1], b[2], b[3], b[4], b[5], b[6], b[7],
                                   FromLe([b[8], b[9], b[10], b[11]]), FromLe([b[12], b[13], b[14], b[15]]))
  {
    hide FromLe;
    assert b[8..12] == [b[8], b[9], b[10], b[11]] && b[12..16] == [b[12], b[13], b[14], b[15]];
  }

  /** The address of the byte at `offset`, or the last one that fits for sectors past cylinder 1023. */
  predicate IsAddress(g: Geometry, cylinder: nat, head: nat, sector: nat, offset: nat)
    requires Usable(g)
  {
    var track := offset / g.sectorSize / g.sectors;
    if track / g.heads <= 1023 then
      cylinder == track / g.heads && head == track % g.heads && sector == offset / g.sectorSize % g.sectors + 1
    else cylinder == 1023 && head == g.heads - 1 && sector == g.sectors
  }

  /** The entry tells of the partition: a flag, a type, its first and its last sector, their distance from the table. */
  ghost predicate Tells(g: Geometry, pos: nat, p: Part, e: DosEntry)
    requires Usable(g) && pos <= p.offset && g.sectorSize <= p.size
  {
    && e.bootInd == (if p.status == PrimBoot then 0x80 else 0) && e.sysInd == p.typeI386
    && IsAddress(g, e.cyl + 256 * (e.sector / 64), e.head, e.sector % 64, p.offset)
    && IsAddress(g, e.endCyl + 256 * (e.endSector / 64), e.endHead, e.endSector % 64,
                 p.offset + p.size - g.sectorSize)
    && e.start == Min(Quotient(p.offset - pos, g.sectorSize), 0xFFFF_FFFF)
    && e.count == Min(Quotient(p.size, g.sectorSize), 0xFFFF_FFFF)
  }

  /** The entry written for a partition. */
  lemma WrittenEntry(g: Geometry, pos: nat, p: Part)
    requires Classic(g) && pos <= p.offset && g.sectorSize <= p.size && p.End() < WORD64 && p.typeI386 < 256
    ensures Tells(g, pos, p, ToEntry(g, pos, p))
  {
    hide SectorByte, Quotient, ToChs, IsAddress, Stored;
    SmallMod(p.offset - pos, WORD64);
    SmallMod(p.End() - g.sectorSize, WORD64);
    StoredIs(g, p.offset);
    StoredIs(g, p.End() - g.sectorSize);
  }

  lemma StoredIs(g: Geometry, offset: nat)
    requires Classic(g)
    ensures var c := Stored(g, offset);
            && c.head < 256
            && IsAddress(g, c.cylinder % 256 + 256 * (SectorByte(c.sector, c.cylinder) / 64), c.head,
                         SectorByte(c.sector, c.cylinder) % 64, offset)
  {
    hide SectorByte;
    var c := Stored(g, offset);
    ChsRoundTrip(g, offset / g.sectorSize);
    PackedCylinder(c.sector, c.cylinder);
  }
}
