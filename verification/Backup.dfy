/** The .dsk backup index: src/core/backup.c:432-523 (writing) and 1239-1421 (loading), src/core/backup.h. */
module BackupFormat {
  import opened Bits
  import opened Disks
  import opened LittleEndian
  import opened PathTree
  import opened Clipping
  import opened SessionFormat
  import opened SessionHeader

  const MAGIC_NUMBER: nat := 0x44534B42
  const FORMAT_VERSION: nat := 1
  const HEADER_SIZE: nat := 72
  const COUNT_OFFSET: nat := 64
  const LONGEST_PATH: nat := 4095
  const LONGEST_MODEL: nat := 255
  const DIR_FLAG: nat := 1
  const NO_CLUSTERS_FLAG: nat := 2

  /** backup_entry_t */
  datatype Entry = Entry(path: seq<byte>, flags: nat, fileSize: nat, mtime: int, clusters: seq<nat>) {
    predicate IsDir() {
      Flag(flags, DIR_FLAG)
    }

    predicate NoClusters() {
      Flag(flags, NO_CLUSTERS_FLAG)
    }
  }

  // ----- one entry -----

  /** Path length, flags, size, mtime, cluster count, reserved. */
  const ENTRY_WIDTHS: seq<nat> := [2, 1, 8, 8, 4, 4]
  const ENTRY_SIZE: nat := 27

  lemma EntryWidth()
    ensures Total(ENTRY_WIDTHS) == ENTRY_SIZE
  {
    TotalOfFour(2, 1, 8, 8);
    assert [4, 4][1..] == [4];
    TotalConcat([2, 1, 8, 8], [4, 4]);
    assert ENTRY_WIDTHS == [2, 1, 8, 8] + [4, 4];
  }

  function EntryFields(e: Entry): (fs: seq<Field>)
    requires FitsSigned(8, e.mtime)
    ensures forall i :: 0 <= i < |fs| ==> fs[i].width in {1, 2, 4, 8}
  {
    [Field(2, |e.path|), Field(1, e.flags), Field(8, e.fileSize), Field(8, ToUnsigned(8, e.mtime)),
     Field(4, |e.clusters|), Field(4, 0)]
  }

  /** write_backup_entry */
  function EntryBytes(e: Entry): seq<byte>
    requires FitsSigned(8, e.mtime)
  {
    Pack(EntryFields(e)) + Cut(e.path) + if e.NoClusters() then [] else ClusterBytes(e.clusters)
  }

  function ClustersPresent(v: seq<nat>): bool
    requires |v| == 6
  {
    v[4] > 0 && !Flag(v[1], NO_CLUSTERS_FLAG)
  }

  function PathLength(v: seq<nat>): nat
    requires |v| == 6
  {
    if v[0] > LONGEST_PATH then LONGEST_PATH else v[0]
  }

  function EntrySize(v: seq<nat>): (n: nat)
    requires |v| == 6
    ensures n >= ENTRY_SIZE + PathLength(v)
  {
    ENTRY_SIZE + PathLength(v) + if ClustersPresent(v) then 8 * v[4] else 0
  }

  function FieldsOf(data: seq<byte>): (v: seq<nat>)
    requires |data| >= ENTRY_SIZE
    ensures |v| == 6
  {
    EntryWidth();
    Unpack(ENTRY_WIDTHS, data)
  }

  function LoadedEntry(v: seq<nat>, data: seq<byte>): Entry
    requires |v| == 6 && |data| >= ENTRY_SIZE + PathLength(v)
  {
    var end := ENTRY_SIZE + PathLength(v);
    Entry(CStr(data[ENTRY_SIZE..end]), v[1], v[2], ToSigned(8, v[3]),
          if ClustersPresent(v) then Clusters(data[end..], v[4]) else [])
  }

  /** The loading loop of backup_restore: at most n entries, stopping at the first that is cut short. */
  function LoadEntries(data: seq<byte>, n: nat): (es: seq<Entry>)
    ensures |es| <= n
    decreases n
  {
    if n == 0 || |data| < ENTRY_SIZE || |data| < EntrySize(FieldsOf(data)) then []
    else [LoadedEntry(FieldsOf(data), data)] + LoadEntries(data[EntrySize(FieldsOf(data))..], n - 1)
  }

  /** The fields fit; paths are C strings. */
  ghost predicate Storable(e: Entry) {
    && 0 !in e.path && |e.path| < Limit(2) && e.flags < Limit(1) && e.fileSize < Limit(8) && FitsSigned(8, e.mtime)
    && |e.clusters| < Limit(4) && forall k :: 0 <= k < |e.clusters| ==> e.clusters[k] < Limit(8)
  }

  /** What is loaded of an entry: the clusters only when they were written. */
  function Stored(e: Entry): Entry {
    if e.NoClusters() then e.(clusters := []) else e
  }

  function Values(e: Entry): (v: seq<nat>)
    requires FitsSigned(8, e.mtime)
    ensures |v| == 6
  {
    [|e.path|, e.flags, e.fileSize, ToUnsigned(8, e.mtime), |e.clusters|, 0]
  }

  lemma EntryHolds(e: Entry)
    requires Storable(e)
    ensures Holds(EntryFields(e), ENTRY_WIDTHS, Values(e))
  {
    Limits();
  }

  /** The path backup_walk_dir writes for a name in a directory: what snprintf leaves of it in 4096 bytes. */
  function FullPath(dir: seq<byte>, name: seq<byte>): seq<byte> {
    Clipped(if dir == [SLASH] then dir + name else dir + [SLASH] + name, LONGEST_PATH + 1)
  }

  /** So the walk writes no path that is too long to be read back. */
  lemma FullPathFits(dir: seq<byte>, name: seq<byte>, e: Entry, rest: seq<byte>)
    requires Storable(e) && e.path == FullPath(dir, name)
    ensures |e.path| <= LONGEST_PATH
    ensures var data := EntryBytes(e) + rest;
            |data| >= ENTRY_SIZE + PathLength(Values(e)) && LoadedEntry(Values(e), data) == Stored(e)
  {
    EntryRoundTrip(e, rest);
  }

  /** An entry is read back as it was written exactly when its path is not too long. */
  lemma EntryRoundTrip(e: Entry, rest: seq<byte>)
    requires Storable(e)
    ensures var data := EntryBytes(e) + rest;
            && |data| >= ENTRY_SIZE && FieldsOf(data) == Values(e)
            && (|e.path| <= LONGEST_PATH ==>
                  EntrySize(Values(e)) == |EntryBytes(e)| && LoadedEntry(Values(e), data) == Stored(e))
            && ((|data| >= EntrySize(Values(e)) && LoadedEntry(Values(e), data) == Stored(e)) ==>
                |e.path| <= LONGEST_PATH)
  {
    hide Pack, Unpack, Total, Limit, Flag, Clusters, AfterClusters, ClusterBytes, FitsSigned, ToUnsigned, ToSigned,
         CStr, Cut;
    var clusters := if e.NoClusters() then [] else ClusterBytes(e.clusters);
    EntryWidth();
    EntryHolds(e);
    Limits();
    UnpackOfPack(EntryFields(e), ENTRY_WIDTHS, Values(e), e.path + clusters + rest);
    var data := EntryBytes(e) + rest;
    assert data == Pack(EntryFields(e)) + (e.path + clusters + rest);
    if |e.path| <= LONGEST_PATH {
      var end := ENTRY_SIZE + |e.path|;
      assert data[ENTRY_SIZE..end] == e.path && data[end..] == clusters + rest;
      SignedRoundTrip(8, e.mtime);
      EmptyClusters(e.clusters);
      ClustersOfBytes(e.clusters, rest);
    } else if |data| >= EntrySize(Values(e)) {
      CStrIsShort(data[ENTRY_SIZE..ENTRY_SIZE + LONGEST_PATH]);
      assert |LoadedEntry(Values(e), data).path| < |Stored(e).path|;
    }
  }

  lemma EmptyClusters(c: seq<nat>)
    ensures |c| == 0 ==> ClusterBytes(c) == []
    ensures |ClusterBytes(c)| == 8 * |c|
  {
  }

  lemma {:induction false} CStrIsShort(b: seq<byte>)
    ensures |CStr(b)| <= |b|
  {
    if |b| > 0 {
      CStrIsShort(b[1..]);
    }
  }

  // ----- all entries -----

  function EntriesBytes(es: seq<Entry>): seq<byte>
    requires forall i :: 0 <= i < |es| ==> FitsSigned(8, es[i].mtime)
  {
    if |es| == 0 then [] else EntryBytes(es[0]) + EntriesBytes(es[1..])
  }

  function AllStored(es: seq<Entry>): (r: seq<Entry>)
    ensures |r| == |es| && forall i :: 0 <= i < |es| ==> r[i] == Stored(es[i])
  {
    seq(|es|, i requires 0 <= i < |es| => Stored(es[i]))
  }

  lemma LoadStep(data: seq<byte>, n: nat)
    ensures LoadEntries(data, n) == if n == 0 || |data| < ENTRY_SIZE || |data| < EntrySize(FieldsOf(data)) then []
                                    else
                                      [LoadedEntry(FieldsOf(data), data)]
                                      + LoadEntries(data[EntrySize(FieldsOf(data))..], n - 1)
  {
  }

  /** Every entry that is all there is loaded. */
  lemma {:induction false} EntriesRoundTrip(es: seq<Entry>, rest: seq<byte>)
    requires forall i :: 0 <= i < |es| ==> Storable(es[i]) && |es[i].path| <= LONGEST_PATH
    ensures forall i :: 0 <= i < |es| ==> FitsSigned(8, es[i].mtime)
    ensures LoadEntries(EntriesBytes(es) + rest, |es|) == AllStored(es)
  {
    hide EntryBytes, Storable, FieldsOf, LoadedEntry, EntrySize, Values, LoadEntries, FitsSigned, Stored;
    StorableTimes(es);
    LoadStep(EntriesBytes(es) + rest, |es|);
    if |es| > 0 {
      var e, tail := es[0], EntriesBytes(es[1..]) + rest;
      EntryRoundTrip(e, tail);
      EntriesRoundTrip(es[1..], rest);
      Split(EntryBytes(e), EntriesBytes(es[1..]), rest);
      assert AllStored(es) == [Stored(e)] + AllStored(es[1..]);
    }
  }

  lemma StorableTimes(es: seq<Entry>)
    requires forall i :: 0 <= i < |es| ==> Storable(es[i])
    ensures forall i :: 0 <= i < |es| ==> FitsSigned(8, es[i].mtime)
  {
  }

  // ----- header -----

  datatype BackupHeader = BackupHeader(flags: nat, fsType: int, diskSize: nat, sectorSize: nat, partOffset: nat,
                                       partSize: nat,
                                       clusterBytes: nat, dataOffset: nat, created: nat)

  const BACKUP_WIDTHS: seq<nat> := [4, 4, 4, 4, 8, 4, 8, 8, 4, 8, 8, 4, 2, 2]

  lemma BackupWidth()
    ensures Total(BACKUP_WIDTHS) == HEADER_SIZE && Total(BACKUP_WIDTHS[..11]) == COUNT_OFFSET
  {
    hide Total;
    TotalOfFour(4, 4, 4, 4);
    TotalOfFour(8, 4, 8, 8);
    TotalOfThree(4, 8, 8);
    TotalOfThree(4, 2, 2);
    TotalConcat([4, 4, 4, 4] + [8, 4, 8, 8] + [4, 8, 8], [4, 2, 2]);
    TotalConcat([4, 4, 4, 4] + [8, 4, 8, 8], [4, 8, 8]);
    TotalConcat([4, 4, 4, 4], [8, 4, 8, 8]);
    assert BACKUP_WIDTHS[..11] == [4, 4, 4, 4] + [8, 4, 8, 8] + [4, 8, 8];
    assert BACKUP_WIDTHS == [4, 4, 4, 4] + [8, 4, 8, 8] + [4, 8, 8] + [4, 2, 2];
  }

  /** The first 255 bytes of the disk model. */
  function ShortModel(model: seq<byte>): (m: seq<byte>)
    ensures |m| <= LONGEST_MODEL
  {
    if |model| > LONGEST_MODEL then model[..LONGEST_MODEL] else model
  }

  function BackupValues(h: BackupHeader, count: nat, model: seq<byte>): (v: seq<nat>)
    requires FitsSigned(4, h.fsType)
    ensures |v| == 14
  {
    [MAGIC_NUMBER, FORMAT_VERSION, h.flags, ToUnsigned(4, h.fsType), h.diskSize, h.sectorSize, h.partOffset, h.partSize,
     h.clusterBytes, h.dataOffset, h.created, count, |ShortModel(model)|, 0]
  }

  function BackupFields(h: BackupHeader, count: nat, model: seq<byte>): (fs: seq<Field>)
    requires FitsSigned(4, h.fsType)
    ensures |fs| == 14 && forall i :: 0 <= i < |fs| ==> fs[i].width in {1, 2, 4, 8}
  {
    var v := BackupValues(h, count, model);
    assert forall i :: 0 <= i < |BACKUP_WIDTHS| ==> BACKUP_WIDTHS[i] in {1, 2, 4, 8};
    seq(14, i requires 0 <= i < 14 => Field(BACKUP_WIDTHS[i], v[i]))
  }

  /** write_backup_header */
  function BackupHeaderBytes(h: BackupHeader, count: nat, model: seq<byte>): seq<byte>
    requires FitsSigned(4, h.fsType)
  {
    var end := HEADER_SIZE + |ShortModel(model)|;
    Pack(BackupFields(h, count, model)) + ShortModel(model) + NulBytes(Padded(end) - end)
  }

  ghost predicate StorableHeader(h: BackupHeader) {
    && h.flags < Limit(4) && FitsSigned(4, h.fsType) && h.diskSize < Limit(8) && h.sectorSize < Limit(4)
    && h.partOffset < Limit(8) && h.partSize < Limit(8) && h.clusterBytes < Limit(4) && h.dataOffset < Limit(8)
    && h.created < Limit(8)
  }

  lemma BackupHolds(h: BackupHeader, count: nat, model: seq<byte>)
    requires StorableHeader(h) && count < Limit(4)
    ensures Holds(BackupFields(h, count, model), BACKUP_WIDTHS, BackupValues(h, count, model))
  {
    hide Limit, FitsSigned, ShortModel;
    Limits();
  }

  /** The fields at the start of a backup file. */
  function BackupHeaderOf(data: seq<byte>): (v: seq<nat>)
    requires |data| >= HEADER_SIZE
    ensures |v| == 14
  {
    BackupWidth();
    Unpack(BACKUP_WIDTHS, data)
  }

  /** The size a disk must roughly have. */
  function OriginalSize(v: seq<nat>): nat
    requires |v| == 14
  {
    var size := if v[6] == 0 then v[4] else v[7];
    if size == 0 then v[4] else size
  }

  /** The disk differs from the backup's by no more than half. */
  predicate SizeMatches(size: nat, diskSize: nat) {
    size == 0 || (if diskSize < size then size - diskSize else diskSize - size) <= size / 2
  }

  /** What backup_restore insists on before it loads entries. */
  predicate Acceptable(data: seq<byte>, diskSize: nat) {
    && |data| >= HEADER_SIZE
    && var v := BackupHeaderOf(data);
       v[0] == MAGIC_NUMBER && v[1] == FORMAT_VERSION && SizeMatches(OriginalSize(v), diskSize)
  }

  /** Where the entries start. */
  function EntriesStart(v: seq<nat>): nat
    requires |v| == 14
  {
    Padded(HEADER_SIZE + if v[12] > 512 then 512 else v[12])
  }

  function EntriesIn(data: seq<byte>): seq<Entry>
    requires |data| >= HEADER_SIZE
  {
    var v := BackupHeaderOf(data);
    LoadEntries(if EntriesStart(v) <= |data| then data[EntriesStart(v)..] else [], v[11])
  }

  lemma BackupHeaderRoundTrip(h: BackupHeader, count: nat, model: seq<byte>, entries: seq<byte>)
    requires StorableHeader(h) && count < Limit(4)
    ensures var data := BackupHeaderBytes(h, count, model) + entries;
            var v := BackupValues(h, count, model);
            && |data| >= HEADER_SIZE && BackupHeaderOf(data) == v
            && EntriesStart(v) <= |data| && data[EntriesStart(v)..] == entries
  {
    hide Pack, Unpack, Total, Limit, BackupFields, NulBytes, ShortModel, FitsSigned, ToUnsigned;
    var end := HEADER_SIZE + |ShortModel(model)|;
    var fields, pad := Pack(BackupFields(h, count, model)), NulBytes(Padded(end) - end);
    BackupWidth();
    BackupHolds(h, count, model);
    UnpackOfPack(BackupFields(h, count, model), BACKUP_WIDTHS, BackupValues(h, count, model),
                 ShortModel(model) + pad + entries);
    FourPieces([], fields, ShortModel(model), pad, entries);
    var data := BackupHeaderBytes(h, count, model) + entries;
    assert data == fields + (ShortModel(model) + pad + entries);
    assert data[Padded(end)..] == entries;
  }

  // ----- the count, filled in at the end -----

  /** Writing the entry count over the header's count field gives the header of that count. */
  lemma CountPatched(h: BackupHeader, was: nat, count: nat, model: seq<byte>, entries: seq<byte>)
    requires StorableHeader(h)
    ensures var data := BackupHeaderBytes(h, was, model) + entries;
            && COUNT_OFFSET + 4 <= |data|
            && Patched(data, COUNT_OFFSET, Le(4, count)) == BackupHeaderBytes(h, count, model) + entries
  {
    hide Pack, NulBytes, ShortModel, Le, BackupFields;
    CountField(h, was, model);
    CountField(h, count, model);
    var fs := BackupFields(h, was, model);
    var end := HEADER_SIZE + |ShortModel(model)|;
    var rest := Pack(fs[12..]) + ShortModel(model) + NulBytes(Padded(end) - end) + entries;
    assert fs[..11] == BackupFields(h, count, model)[..11] && fs[12..] == BackupFields(h, count, model)[12..];
    var a := Pack(fs[..11]);
    Replaced(a, Le(4, was), Le(4, count), rest);
    SixPieces(a, Le(4, was), Pack(fs[12..]), ShortModel(model), NulBytes(Padded(end) - end), entries);
    SixPieces(a, Le(4, count), Pack(fs[12..]), ShortModel(model), NulBytes(Padded(end) - end), entries);
  }

  lemma SixPieces(a: seq<byte>, b: seq<byte>, c: seq<byte>, d: seq<byte>, e: seq<byte>, g: seq<byte>)
    ensures a + b + c + d + e + g == a + b + (c + d + e + g)
  {
  }

  /** The eleven fields before the count take 64 bytes; only the count depends on it. */
  lemma CountField(h: BackupHeader, count: nat, model: seq<byte>)
    requires FitsSigned(4, h.fsType)
    ensures var fs := BackupFields(h, count, model);
            && Pack(fs) == Pack(fs[..11]) + Le(4, count) + Pack(fs[12..]) && |Pack(fs[..11])| == COUNT_OFFSET
    ensures var fs, other := BackupFields(h, count, model), BackupFields(h, 0, model);
            fs[..11] == other[..11] && fs[12..] == other[12..]
  {
    hide Pack, Total, ShortModel, Le, FitsSigned;
    var fs := BackupFields(h, count, model);
    BackupWidth();
    PackLength(fs[..11], BACKUP_WIDTHS[..11]);
    PackConcat(fs[..11], fs[11..]);
    PackFirst(fs[11], fs[12..]);
    assert fs[..11] + fs[11..] == fs && fs[11..] == [fs[11]] + fs[12..];
    Split(Pack(fs[..11]), Le(4, count), Pack(fs[12..]));
  }

  lemma Replaced(a: seq<byte>, b: seq<byte>, c: seq<byte>, d: seq<byte>)
    requires |b| == |c|
    ensures Patched(a + b + d, |a|, c) == a + c + d
  {
  }

  // ----- whole files -----

  /** "/", a directory without clusters, always the first entry. */
  const ROOT_ENTRY: Entry := Entry([47], DIR_FLAG + NO_CLUSTERS_FLAG, 0, 0, [])

  function BackupBytes(h: BackupHeader, model: seq<byte>, es: seq<Entry>): seq<byte>
    requires FitsSigned(4, h.fsType) && forall i :: 0 <= i < |es| ==> FitsSigned(8, es[i].mtime)
  {
    BackupHeaderBytes(h, |es| + 1, model) + EntriesBytes([ROOT_ENTRY] + es)
  }

  /** A backup can be loaded on a disk of about the same size, and gives back its entries. */
  lemma BackupRoundTrip(h: BackupHeader, model: seq<byte>, es: seq<Entry>, diskSize: nat)
    requires StorableHeader(h) && |es| + 1 < Limit(4)
    requires forall i :: 0 <= i < |es| ==> Storable(es[i]) && |es[i].path| <= LONGEST_PATH
    ensures FitsSigned(4, h.fsType) && forall i :: 0 <= i < |es| ==> FitsSigned(8, es[i].mtime)
    ensures var data := BackupBytes(h, model, es);
            var size := if h.partOffset == 0 || h.partSize == 0 then h.diskSize else h.partSize;
            && |data| >= HEADER_SIZE && EntriesIn(data) == [Stored(ROOT_ENTRY)] + AllStored(es)
            && (Acceptable(data, diskSize) <==> SizeMatches(size, diskSize))
  {
    hide BackupHeaderBytes, EntriesBytes, LoadEntries, Limit, Storable, FitsSigned, ShortModel, SizeMatches;
    var all := [ROOT_ENTRY] + es;
    RootStorable();
    StorableTimes(all);
    StorableTimes(es);
    EntriesRoundTrip(all, []);
    var entries := EntriesBytes(all);
    assert entries + [] == entries;
    assert AllStored(all) == [Stored(ROOT_ENTRY)] + AllStored(es);
    HeaderTimes(h);
    BackupHeaderRoundTrip(h, |es| + 1, model, entries);
  }

  lemma HeaderTimes(h: BackupHeader)
    requires StorableHeader(h)
    ensures FitsSigned(4, h.fsType)
  {
  }

  lemma RootStorable()
    ensures Storable(ROOT_ENTRY)
  {
    Limits();
    assert Limit(1) == 256;
  }
}

/** Comparing a backup with the live filesystem: src/core/backup.c:942-1041. */
module BackupTree {
  import opened Disks
  import opened PathTree
  import opened BackupFormat

  // ----- strcmp -----

  /** The sign of strcmp on strings without NULs: bytes compare as unsigned, a prefix comes first. */
  function StrCmp(a: seq<byte>, b: seq<byte>): int {
    if |a| == 0 then if |b| == 0 then 0 else -1
    else if |b| == 0 then 1
    else if a[0] != b[0] then a[0] - b[0]
    else StrCmp(a[1..], b[1..])
  }

  lemma {:induction false} StrCmpEqual(a: seq<byte>, b: seq<byte>)
    ensures StrCmp(a, b) == 0 <==> a == b
    ensures StrCmp(a, b) < 0 <==> StrCmp(b, a) > 0
  {
    if |a| > 0 && |b| > 0 {
      StrCmpEqual(a[1..], b[1..]);
      assert a == [a[0]] + a[1..] && b == [b[0]] + b[1..];
    }
  }

  lemma {:induction false} StrCmpTransitive(a: seq<byte>, b: seq<byte>, c: seq<byte>)
    requires StrCmp(a, b) <= 0 && StrCmp(b, c) <= 0
    ensures StrCmp(a, c) <= 0
    ensures StrCmp(a, c) == 0 ==> StrCmp(a, b) == 0 && StrCmp(b, c) == 0
  {
    if |a| > 0 && |b| > 0 && |c| > 0 && a[0] == b[0] == c[0] {
      StrCmpTransitive(a[1..], b[1..], c[1..]);
    }
  }

  ghost predicate SortedByPath(live: seq<Entry>) {
    forall i, j :: 0 <= i < j < |live| ==> StrCmp(live[i].path, live[j].path) <= 0
  }

  /** Entries with the same path have the same size and time. */
  ghost predicate AlikePaths(live: seq<Entry>) {
    forall i, j :: 0 <= i < |live| && 0 <= j < |live| && live[i].path == live[j].path ==>
                     live[i].fileSize == live[j].fileSize && live[i].mtime == live[j].mtime
  }

  /** Where the binary search for a path ends between lo and hi: at an entry with that path, or nowhere. */
  function Search(live: seq<Entry>, path: seq<byte>, lo: nat, hi: nat): (r: int)
    requires lo <= hi <= |live|
    ensures r == -1 || (lo <= r < hi && live[r].path == path)
    decreases hi - lo
  {
    if lo == hi then -1
    else
      var mid := lo + (hi - lo) / 2;
      var cmp := StrCmp(path, live[mid].path);
      StrCmpEqual(path, live[mid].path);
      if cmp == 0 then mid
      else if cmp < 0 then Search(live, path, lo, mid)
      else Search(live, path, mid + 1, hi)
  }

  /** In a sorted list it overlooks nothing. */
  lemma {:induction false} SearchFinds(live: seq<Entry>, path: seq<byte>, lo: nat, hi: nat)
    requires lo <= hi <= |live| && SortedByPath(live) && Search(live, path, lo, hi) == -1
    ensures forall k :: lo <= k < hi ==> live[k].path != path
    decreases hi - lo
  {
    hide StrCmp;
    if lo < hi {
      var mid := lo + (hi - lo) / 2;
      StrCmpEqual(path, live[mid].path);
      StrCmpEqual(live[mid].path, path);
      if StrCmp(path, live[mid].path) < 0 {
        SearchFinds(live, path, lo, mid);
        forall k | mid <= k < hi
          ensures live[k].path != path
        {
          NotAbove(live, mid, k, path);
        }
      } else {
        SearchFinds(live, path, mid + 1, hi);
        forall k | lo <= k <= mid
          ensures live[k].path != path
        {
          NotBelow(live, k, mid, path);
        }
      }
    }
  }

  /** find_live_entry: the position of an entry with that path; -1, in a sorted list, exactly when there is none. */
  method FindLiveEntry(live: seq<Entry>, path: seq<byte>) returns (r: int)
    ensures r == Search(live, path, 0, |live|) && -1 <= r < |live|
    ensures r >= 0 ==> live[r].path == path
    ensures SortedByPath(live) ==> (r == -1 <==> forall k :: 0 <= k < |live| ==> live[k].path != path)
  {
    hide StrCmp, SortedByPath;
    if SortedByPath(live) && Search(live, path, 0, |live|) == -1 {
      SearchFinds(live, path, 0, |live|);
    }
    var lo, hi := 0, |live|;
    while lo < hi
      invariant 0 <= lo <= hi <= |live|
      invariant Search(live, path, lo, hi) == Search(live, path, 0, |live|)
    {
      var mid := lo + (hi - lo) / 2;
      var cmp := StrCmp(path, live[mid].path);
      if cmp == 0 {
        return mid;
      } else if cmp < 0 {
        hi := mid;
      } else {
        lo := mid + 1;
      }
    }
    r := -1;
  }

  lemma NotAbove(live: seq<Entry>, mid: nat, k: nat, path: seq<byte>)
    requires SortedByPath(live) && mid <= k < |live| && StrCmp(path, live[mid].path) < 0
    ensures live[k].path != path
  {
    StrCmpEqual(path, live[k].path);
    if mid < k {
      StrCmpTransitive(path, live[mid].path, live[k].path);
    }
  }

  lemma NotBelow(live: seq<Entry>, k: nat, mid: nat, path: seq<byte>)
    requires SortedByPath(live) && k <= mid < |live| && StrCmp(live[mid].path, path) < 0
    ensures live[k].path != path
  {
    StrCmpEqual(live[k].path, path);
    if k < mid {
      StrCmpTransitive(live[k].path, live[mid].path, path);
    }
  }

  // ----- the verdict on an entry -----

  datatype Verdict = Unchanged | Deleted | Modified

  /** Against the entry that the binary search finds. */
  function Judge(live: seq<Entry>, e: Entry): Verdict {
    var k := Search(live, e.path, 0, |live|);
    if k < 0 then Deleted
    else if live[k].fileSize != e.fileSize || live[k].mtime != e.mtime then Modified
    else Unchanged
  }

  /** In a sorted list an entry is gone exactly when no live entry has its path.  If live entries with the same path are
      alike, it is unchanged exactly when one with its path has its size and its time. */
  lemma JudgeIsPlainLookup(live: seq<Entry>, e: Entry)
    requires SortedByPath(live)
    ensures Judge(live, e) == Deleted <==> forall k :: 0 <= k < |live| ==> live[k].path != e.path
    ensures AlikePaths(live) ==>
              (Judge(live, e) == Unchanged <==>
                 exists k :: 0 <= k < |live| && live[k].path == e.path && live[k].fileSize == e.fileSize
                             && live[k].mtime == e.mtime)
  {
    hide SortedByPath, StrCmp;
    if Search(live, e.path, 0, |live|) == -1 {
      SearchFinds(live, e.path, 0, |live|);
    }
  }

  /** Sectors needed for a file. */
  function SectorsFor(size: nat, sectorSize: nat): (n: nat)
    requires sectorSize > 0
    ensures size <= n * sectorSize
    ensures n > 0 ==> (n - 1) * sectorSize < size
  {
    var n := if size > 0 then (size + sectorSize - 1) / sectorSize else 0;
    RoundedUp(size, sectorSize);
    n
  }

  lemma RoundedUp(size: nat, sectorSize: nat)
    requires sectorSize > 0
    ensures var n := (size + sectorSize - 1) / sectorSize;
            size <= n * sectorSize && (size > 0 ==> (n - 1) * sectorSize < size)
  {
    var n := (size + sectorSize - 1) / sectorSize;
    assert size + sectorSize - 1 == n * sectorSize + (size + sectorSize - 1) % sectorSize;
  }

  // ----- the tree that backup_restore_build_tree builds -----

  /** What a comparison is made with: the live entries, the sector size of the disk and the cluster size of the
      backup. */
  datatype Setting = Setting(live: seq<Entry>, sectorSize: nat, clusterBytes: nat)

  function Names(e: Entry): seq<Name> {
    Tokens(e.path)
  }

  predicate Selected(s: Setting, e: Entry) {
    Judge(s.live, e) != Unchanged
  }

  function RestoreAttrs(s: Setting, e: Entry): Attrs
    requires s.sectorSize > 0
  {
    Attrs(e.IsDir(), e.fileSize, 0, SectorsFor(e.fileSize, s.sectorSize), e.mtime, s.sectorSize,
          Judge(s.live, e) == Deleted)
  }

  predicate KeepsClusters(e: Entry) {
    !e.IsDir() && !e.NoClusters() && |e.clusters| > 0
  }

  function RestoredInfo(i: Info, s: Setting, e: Entry): Info {
    var j := i.(backupRestored := true, backupModified := Judge(s.live, e) == Modified);
    if KeepsClusters(e) then j.(clusterList := e.clusters, clusterSize := s.clusterBytes) else j
  }

  function Step(t: Tree, s: Setting, e: Entry): Tree
    requires s.sectorSize > 0
  {
    if !Selected(s, e) then t
    else
      AddPathFound(t, Names(e), RestoreAttrs(s, e));
      var t1 := AddPath(t, Names(e), RestoreAttrs(s, e));
      var node := Lookup(t1, Names(e))[0];
      Put(t1, Names(e), node.(info := RestoredInfo(node.info, s, e)))
  }

  function Built(t: Tree, s: Setting, es: seq<Entry>): Tree
    requires s.sectorSize > 0
    decreases |es|
  {
    if |es| == 0 then t else Built(Step(t, s, es[0]), s, es[1..])
  }

  lemma {:induction false} BuiltAppend(t: Tree, s: Setting, es: seq<Entry>, e: Entry)
    requires s.sectorSize > 0
    ensures Built(t, s, es + [e]) == Step(Built(t, s, es), s, e)
    decreases |es|
  {
    hide Step;
    if |es| == 0 {
      assert (es + [e])[1..] == [];
    } else {
      assert (es + [e])[1..] == es[1..] + [e];
      BuiltAppend(Step(t, s, es[0]), s, es[1..], e);
    }
  }

  // ----- what the built tree holds -----

  /** One selected entry, seen from any path p. */
  lemma StepLookup(t: Tree, s: Setting, e: Entry, p: seq<Name>)
    requires s.sectorSize > 0 && Selected(s, e)
    ensures var q, before, after := Names(e), Lookup(t, p), Lookup(Step(t, s, e), p);
            if p == q then
              && |after| == 1
              && after[0].info == RestoredInfo(if |before| == 0 then NewInfo(p[|p| - 1], RestoreAttrs(s, e))
                                               else if |q| > 0 then Touched(before[0].info, RestoreAttrs(s, e))
                                               else before[0].info, s, e)
            else if |before| == 1 then |after| == 1 && after[0].info == before[0].info
            else if OnTheWay(p, q) then |after| == 1 && after[0].info == NewInfo(p[|p| - 1], DirAttrs)
            else after == []
  {
    hide Lookup, AddPath, Put, Tokens, Touched, NewInfo, SectorsFor, RestoreAttrs, OnTheWay;
    var q, a := Names(e), RestoreAttrs(s, e);
    AddPathFound(t, q, a);
    var t1 := AddPath(t, q, a);
    var node := Lookup(t1, q)[0];
    AddPathLookup(t, q, a, p);
    OnTheWayToItself(t, q);
    PutInfoLookup(t1, q, node.(info := RestoredInfo(node.info, s, e)), p);
  }

  lemma OnTheWayToItself(t: Tree, q: seq<Name>)
    ensures |q| > 0 ==> OnTheWay(q, q)
    ensures |q| == 0 ==> |Lookup(t, q)| == 1
  {
    if |q| > 0 {
      assert q[..|q|] == q;
    }
  }

  /** Entries for other paths leave a node's fields alone. */
  lemma {:induction false} BuiltKeeps(t: Tree, s: Setting, es: seq<Entry>, p: seq<Name>)
    requires s.sectorSize > 0 && |Lookup(t, p)| == 1
    requires forall j :: 0 <= j < |es| && Selected(s, es[j]) ==> Names(es[j]) != p
    ensures |Lookup(Built(t, s, es), p)| == 1 && Lookup(Built(t, s, es), p)[0].info == Lookup(t, p)[0].info
    decreases |es|
  {
    hide Lookup, Step, Selected, Names, OnTheWay;
    if |es| > 0 {
      StepUnselected(t, s, es[0]);
      if Selected(s, es[0]) {
        StepLookup(t, s, es[0], p);
      }
      BuiltKeeps(Step(t, s, es[0]), s, es[1..], p);
    }
  }

  lemma StepUnselected(t: Tree, s: Setting, e: Entry)
    requires s.sectorSize > 0
    ensures !Selected(s, e) ==> Step(t, s, e) == t
  {
  }

  /** The fields of the node made for an entry that is gone or changed. */
  function RestoredNode(s: Setting, e: Entry): Info
    requires s.sectorSize > 0 && |Names(e)| > 0
  {
    Info(Names(e)[|Names(e)| - 1], e.IsDir(), e.fileSize, 0, SectorsFor(e.fileSize, s.sectorSize), e.mtime,
         s.sectorSize,
         false, Judge(s.live, e) == Deleted, false, false, true, Judge(s.live, e) == Modified,
         if KeepsClusters(e) then e.clusters else [], if KeepsClusters(e) then s.clusterBytes else 0)
  }

  /** No selected entry before the i-th lies below it, and none after it has the same path. */
  ghost predicate ParentsFirst(s: Setting, es: seq<Entry>, i: nat)
    requires i < |es|
  {
    && (forall j :: 0 <= j < i && Selected(s, es[j]) ==> !OnTheWay(Names(es[i]), Names(es[j])))
    && (forall j :: i < j < |es| && Selected(s, es[j]) ==> Names(es[j]) != Names(es[i]))
  }

  /** Every entry that is gone or changed is in the tree, with its own size, time, verdict and clusters. */
  lemma {:induction false} BuiltHasEntry(t: Tree, s: Setting, es: seq<Entry>, i: nat)
    requires s.sectorSize > 0 && i < |es| && Selected(s, es[i]) && ParentsFirst(s, es, i)
    requires |Names(es[i])| > 0 && |Lookup(t, Names(es[i]))| == 0
    ensures var node := Lookup(Built(t, s, es), Names(es[i]));
            |node| == 1 && node[0].info == RestoredNode(s, es[i])
    decreases |es|
  {
    hide Lookup, Step, Selected, Names, OnTheWay, SectorsFor, RestoredNode, RestoredInfo, RestoreAttrs;
    var p, rest := Names(es[i]), es[1..];
    if i == 0 {
      StepLookup(t, s, es[0], p);
      FreshNode(s, es[0]);
      BuiltKeeps(Step(t, s, es[0]), s, rest, p);
    } else {
      StepUnselected(t, s, es[0]);
      if Selected(s, es[0]) {
        StepLookup(t, s, es[0], p);
        OnTheWayToItself(t, p);
      }
      BuiltHasEntry(Step(t, s, es[0]), s, rest, i - 1);
    }
  }

  // ----- every path, whatever was there before -----

  /** The fields of the node at p: one value, or none when there is no such node. */
  function InfosAt(t: Tree, p: seq<Name>): (i: seq<Info>)
    ensures |i| <= 1
  {
    if |Lookup(t, p)| == 0 then [] else [Lookup(t, p)[0].info]
  }

  /** What one entry does to them. */
  function Effect(i: seq<Info>, s: Setting, e: Entry, p: seq<Name>): seq<Info>
    requires s.sectorSize > 0
  {
    var a := RestoreAttrs(s, e);
    if !Selected(s, e) then i
    else if p == Names(e) then
      if |p| == 0 then if |i| == 0 then [] else [RestoredInfo(i[0], s, e)]
      else [RestoredInfo(if |i| == 0 then NewInfo(p[|p| - 1], a) else Touched(i[0], a), s, e)]
    else if |i| == 1 then i
    else if OnTheWay(p, Names(e)) then [NewInfo(p[|p| - 1], DirAttrs)]
    else []
  }

  function Effects(i: seq<Info>, s: Setting, es: seq<Entry>, p: seq<Name>): seq<Info>
    requires s.sectorSize > 0
    decreases |es|
  {
    if |es| == 0 then i else Effects(Effect(i, s, es[0], p), s, es[1..], p)
  }

  /** The fields of every node of the built tree, whether it was there before, is new, or is restored more than once. */
  lemma {:induction false} BuiltIsEffects(t: Tree, s: Setting, es: seq<Entry>, p: seq<Name>)
    requires s.sectorSize > 0
    ensures InfosAt(Built(t, s, es), p) == Effects(InfosAt(t, p), s, es, p)
    decreases |es|
  {
    hide Lookup, Step, Selected, Names, OnTheWay, RestoreAttrs, RestoredInfo;
    if |es| > 0 {
      StepUnselected(t, s, es[0]);
      if Selected(s, es[0]) {
        StepLookup(t, s, es[0], p);
        OnTheWayToItself(t, p);
      }
      assert InfosAt(Step(t, s, es[0]), p) == Effect(InfosAt(t, p), s, es[0], p);
      BuiltIsEffects(Step(t, s, es[0]), s, es[1..], p);
    }
  }

  /** What becomes of a node that is there already: it takes the clusters, if any, and the verdict of the entry; its
      size and time only if it is a file that this entry declares deleted. */
  function UpdatedNode(i: Info, s: Setting, e: Entry): Info
    requires s.sectorSize > 0
  {
    var taken := Judge(s.live, e) == Deleted && !i.deleted && !i.isDir;
    Info(i.name, i.isDir, if taken then e.fileSize else i.size, if taken then 0 else i.firstSector,
         if taken then SectorsFor(e.fileSize, s.sectorSize) else i.numSectors, if taken then e.mtime else i.mtime,
         if taken then s.sectorSize else i.sectorSize, i.marked, i.deleted || Judge(s.live, e) == Deleted, i.expanded,
         i.orphan, true, Judge(s.live, e) == Modified,
         if KeepsClusters(e) then e.clusters else i.clusterList,
         if KeepsClusters(e) then s.clusterBytes else i.clusterSize)
  }

  lemma TouchedNode(i: Info, s: Setting, e: Entry)
    requires s.sectorSize > 0
    ensures RestoredInfo(Touched(i, RestoreAttrs(s, e)), s, e) == UpdatedNode(i, s, e)
  {
    hide SectorsFor, Tokens, Judge;
  }

  /** A node that is there already, and is named by one entry that is gone or changed. */
  lemma {:induction false} BuiltUpdates(t: Tree, s: Setting, es: seq<Entry>, i: nat)
    requires s.sectorSize > 0 && i < |es| && Selected(s, es[i]) && |Names(es[i])| > 0
    requires |Lookup(t, Names(es[i]))| == 1
    requires forall j :: 0 <= j < |es| && j != i && Selected(s, es[j]) ==> Names(es[j]) != Names(es[i])
    ensures var p := Names(es[i]);
            && |Lookup(Built(t, s, es), p)| == 1
            && Lookup(Built(t, s, es), p)[0].info == UpdatedNode(Lookup(t, p)[0].info, s, es[i])
    decreases |es|
  {
    hide Lookup, Step, Selected, Names, OnTheWay, SectorsFor, UpdatedNode, RestoredInfo, RestoreAttrs, Touched;
    var p, rest := Names(es[i]), es[1..];
    StepUnselected(t, s, es[0]);
    if Selected(s, es[0]) {
      StepLookup(t, s, es[0], p);
    }
    if i == 0 {
      TouchedNode(Lookup(t, p)[0].info, s, es[0]);
      BuiltKeeps(Step(t, s, es[0]), s, rest, p);
    } else {
      BuiltUpdates(Step(t, s, es[0]), s, rest, i - 1);
    }
  }

  lemma {:induction false} BuiltSplit(t: Tree, s: Setting, a: seq<Entry>, b: seq<Entry>)
    requires s.sectorSize > 0
    ensures Built(t, s, a + b) == Built(Built(t, s, a), s, b)
    decreases |a|
  {
    hide Step;
    if |a| == 0 {
      assert a + b == b;
    } else {
      assert (a + b)[1..] == a[1..] + b;
      BuiltSplit(Step(t, s, a[0]), s, a[1..], b);
    }
  }

  /** The clusters and the cluster size of the node at p; none when there is no such node. */
  function ClustersAt(t: Tree, p: seq<Name>): (seq<nat>, nat) {
    if |Lookup(t, p)| == 0 then ([], 0) else (Lookup(t, p)[0].info.clusterList, Lookup(t, p)[0].info.clusterSize)
  }

  /** The last entry for a path that is gone or changed: a file written with clusters leaves all of them in its node,
      with the cluster size of the backup; anything else leaves the node the clusters it had. */
  lemma BuiltClusters(t: Tree, s: Setting, es: seq<Entry>, i: nat)
    requires s.sectorSize > 0 && i < |es| && Selected(s, es[i])
    requires forall j :: i < j < |es| && Selected(s, es[j]) ==> Names(es[j]) != Names(es[i])
    ensures var e := es[i];
            ClustersAt(Built(t, s, es), Names(e))
              == if e.flags % 2 == 0 && e.flags / 2 % 2 == 0 && |e.clusters| > 0 then (e.clusters, s.clusterBytes)
                 else ClustersAt(Built(t, s, es[..i]), Names(e))
  {
    hide Lookup, Step, Selected, Names, OnTheWay, SectorsFor, RestoreAttrs, Built;
    var p, before := Names(es[i]), Built(t, s, es[..i]);
    assert es == es[..i] + es[i..] && es[i..][0] == es[i] && es[i..][1..] == es[i + 1..];
    BuiltSplit(t, s, es[..i], es[i..]);
    BuiltStep(before, s, es[i..]);
    StepLookup(before, s, es[i], p);
    BuiltKeeps(Step(before, s, es[i]), s, es[i + 1..], p);
  }

  /** A file of 10 bytes in the tree and of 5 in the backup, changed on the disk: it keeps its size, with other
      clusters. */
  lemma KeepsItsSize() returns (t: Tree, s: Setting, e: Entry)
    ensures s.sectorSize > 0 && e.fileSize == 5 && e.clusters == [4096] && Judge(s.live, e) == Modified
    ensures |Lookup(t, Names(e))| == 1 && Lookup(t, Names(e))[0].info.size == 10
    ensures var node := Lookup(Built(t, s, [e]), Names(e));
            |node| == 1 && node[0].info.size == 10 && node[0].info.clusterList == [4096]
  {
    hide Tokens, Built;
    var name: Name := [97];
    e := Entry(Joined([name]), 0, 5, 0, [4096]);
    TokensOfJoined([name]);
    var file := NewInfo(name, Attrs(false, 10, 0, 0, 0, 512, false));
    t := Tree(NewInfo([SLASH], DirAttrs), [Tree(file, [])]);
    s := Setting([e.(fileSize := 6)], 512, 4096);
    StrCmpEqual(e.path, e.path);
    assert Lookup(t, [name]) == Lookup(t.kids[0], [name][1..]);
    assert Search(s.live, e.path, 0, 1) == 0;
    BuiltUpdates(t, s, [e], 0);
  }

  lemma FreshNode(s: Setting, e: Entry)
    requires s.sectorSize > 0 && |Names(e)| > 0
    ensures RestoredInfo(NewInfo(Names(e)[|Names(e)| - 1], RestoreAttrs(s, e)), s, e) == RestoredNode(s, e)
  {
    hide SectorsFor, Tokens;
  }

  /** Nothing else appears: only selected entries and the directories on the way to them. */
  lemma {:induction false} BuiltHasNothingElse(t: Tree, s: Setting, es: seq<Entry>, p: seq<Name>)
    requires s.sectorSize > 0 && |Lookup(t, p)| == 0
    ensures |Lookup(Built(t, s, es), p)| == 1 <==>
              exists j :: 0 <= j < |es| && Selected(s, es[j]) && OnTheWay(p, Names(es[j]))
    decreases |es|
  {
    hide Lookup, Step, Selected, Names, OnTheWay, Built;
    BuiltStep(t, s, es);
    if |es| > 0 {
      var t1, rest := Step(t, s, es[0]), es[1..];
      StepUnselected(t, s, es[0]);
      if Selected(s, es[0]) {
        StepLookup(t, s, es[0], p);
        OnTheWayToItself(t, p);
      }
      if |Lookup(t1, p)| == 0 {
        BuiltHasNothingElse(t1, s, rest, p);
      } else {
        BuiltStays(t1, s, rest, p);
      }
      assert forall j :: 0 < j < |es| ==> es[j] == rest[j - 1];
      assert forall j :: 0 <= j < |rest| ==> rest[j] == es[j + 1];
    }
  }

  lemma BuiltStep(t: Tree, s: Setting, es: seq<Entry>)
    requires s.sectorSize > 0
    ensures Built(t, s, es) == if |es| == 0 then t else Built(Step(t, s, es[0]), s, es[1..])
  {
  }

  lemma {:induction false} BuiltStays(t: Tree, s: Setting, es: seq<Entry>, p: seq<Name>)
    requires s.sectorSize > 0 && |Lookup(t, p)| == 1
    ensures |Lookup(Built(t, s, es), p)| == 1
    ensures Lookup(t, p)[0].info.backupRestored ==> Lookup(Built(t, s, es), p)[0].info.backupRestored
    decreases |es|
  {
    hide Lookup, Step, Selected, Names, OnTheWay, RestoreAttrs;
    if |es| > 0 {
      StepUnselected(t, s, es[0]);
      if Selected(s, es[0]) {
        StepLookup(t, s, es[0], p);
      }
      BuiltStays(Step(t, s, es[0]), s, es[1..], p);
    }
  }

  /** Starting from a tree without such marks at p, the node at p is marked as restored exactly when a selected entry
      has that path; for "/" that is the root. */
  lemma {:induction false} BuiltMarks(t: Tree, s: Setting, es: seq<Entry>, p: seq<Name>)
    requires s.sectorSize > 0 && (|Lookup(t, p)| == 1 ==> !Lookup(t, p)[0].info.backupRestored)
    ensures (|Lookup(Built(t, s, es), p)| == 1 && Lookup(Built(t, s, es), p)[0].info.backupRestored)
            <==> exists j :: 0 <= j < |es| && Selected(s, es[j]) && Names(es[j]) == p
    decreases |es|
  {
    hide Lookup, Step, Selected, Names, OnTheWay, RestoreAttrs, Built;
    BuiltStep(t, s, es);
    if |es| > 0 {
      var t1, rest := Step(t, s, es[0]), es[1..];
      StepUnselected(t, s, es[0]);
      if Selected(s, es[0]) {
        StepLookup(t, s, es[0], p);
      }
      if |Lookup(t1, p)| == 1 && Lookup(t1, p)[0].info.backupRestored {
        BuiltStays(t1, s, rest, p);
      } else {
        BuiltMarks(t1, s, rest, p);
      }
      assert forall j :: 0 < j < |es| ==> es[j] == rest[j - 1];
      assert forall j :: 0 <= j < |rest| ==> rest[j] == es[j + 1];
    }
  }

  /** A live entry has the same path, size and time. */
  ghost predicate StillThere(live: seq<Entry>, e: Entry) {
    exists k :: 0 <= k < |live| && live[k].path == e.path && live[k].fileSize == e.fileSize && live[k].mtime == e.mtime
  }

  /** With a sorted list of live entries, alike where they have the same path: what is marked as restored is exactly
      what is not there any more as it was. */
  lemma MarksAreChanges(t: Tree, s: Setting, es: seq<Entry>, p: seq<Name>)
    requires s.sectorSize > 0 && (|Lookup(t, p)| == 1 ==> !Lookup(t, p)[0].info.backupRestored)
    requires SortedByPath(s.live) && AlikePaths(s.live)
    ensures (|Lookup(Built(t, s, es), p)| == 1 && Lookup(Built(t, s, es), p)[0].info.backupRestored)
            <==> exists j :: 0 <= j < |es| && !StillThere(s.live, es[j]) && Tokens(es[j].path) == p
  {
    hide Lookup, Built, Judge, SortedByPath, AlikePaths;
    BuiltMarks(t, s, es, p);
    forall j | 0 <= j < |es|
      ensures Selected(s, es[j]) <==> !StillThere(s.live, es[j])
    {
      JudgeIsPlainLookup(s.live, es[j]);
    }
  }

  /** A file that is gone, and of which nothing was in the tree: its node. */
  lemma GoneFileIsThere(t: Tree, s: Setting, es: seq<Entry>, i: nat)
    requires s.sectorSize > 0 && SortedByPath(s.live) && i < |es| && ParentsFirst(s, es, i)
    requires forall k :: 0 <= k < |s.live| ==> s.live[k].path != es[i].path
    requires |Names(es[i])| > 0 && |Lookup(t, Names(es[i]))| == 0
    ensures var e, p := es[i], Tokens(es[i].path);
            var node := Lookup(Built(t, s, es), p);
            && |p| > 0 && |node| == 1
            && var f := node[0].info;
            && f.name == p[|p| - 1] && (f.isDir <==> e.flags % 2 == 1) && f.size == e.fileSize && f.mtime == e.mtime
            && f.deleted && f.backupRestored && !f.backupModified && !f.marked && !f.orphan
            && f.firstSector == 0 && f.sectorSize == s.sectorSize
            && e.fileSize <= f.numSectors * s.sectorSize && f.numSectors * s.sectorSize < e.fileSize + s.sectorSize
  {
    hide Lookup, Built, SortedByPath, Search;
    JudgeIsPlainLookup(s.live, es[i]);
    BuiltHasEntry(t, s, es, i);
    FewSectors(es[i].fileSize, s.sectorSize);
  }

  lemma FewSectors(size: nat, sectorSize: nat)
    requires sectorSize > 0
    ensures SectorsFor(size, sectorSize) * sectorSize < size + sectorSize
  {
    var n := SectorsFor(size, sectorSize);
    assert n > 0 ==> (n - 1) * sectorSize == n * sectorSize - sectorSize;
  }
}

/** Making a backup and restoring from it. */
module Backups {
  import opened Wrappers
  import opened Bits
  import opened Disks
  import opened LittleEndian
  import opened Files
  import opened PathTree
  import opened ScanTrees
  import opened SessionFormat
  import opened SessionHeader
  import opened Sessions
  import opened BackupFormat
  import opened BackupTree

  // ----- writing -----

  /** write_backup_header */
  method WriteBackupHeader(f: File, h: BackupHeader, count: nat, model: seq<byte>) returns (ret: int)
    requires FitsSigned(4, h.fsType) && |f.data| <= f.limit
    modifies f`data
    ensures |f.data| <= f.limit && ret in {0, -1}
    ensures ret == 0 <==> |old(f.data)| + |BackupHeaderBytes(h, count, model)| <= f.limit
    ensures ret == 0 ==> f.data == old(f.data) + BackupHeaderBytes(h, count, model)
  {
    hide Pack, BackupFields, FitsSigned, Padded, NulBytes;
    BackupWidth();
    var ok := f.WriteFields(BackupFields(h, count, model));
    if !ok {
      return -1;
    }
    var shortModel := ShortModel(model);
    ok := f.Fwrite(shortModel);
    if !ok {
      return -1;
    }
    var end := HEADER_SIZE + |shortModel|;
    ok := WritePadding(f, Padded(end) - end);
    if !ok {
      return -1;
    }
    Split(old(f.data), Pack(BackupFields(h, count, model)), shortModel);
    Split(old(f.data), Pack(BackupFields(h, count, model)) + shortModel, NulBytes(Padded(end) - end));
    ret := 0;
  }

  /** write_backup_entry */
  method WriteBackupEntry(f: File, e: Entry) returns (ret: int)
    requires FitsSigned(8, e.mtime) && |f.data| <= f.limit
    modifies f`data
    ensures old(f.data) <= f.data && |f.data| <= f.limit && ret in {0, -1}
    ensures ret == 0 <==> |old(f.data)| + |EntryBytes(e)| <= f.limit
    ensures ret == 0 ==> f.data == old(f.data) + EntryBytes(e)
  {
    hide Pack, EntryFields, FitsSigned, ClusterBytes, Flag;
    var ok := f.WriteFields(EntryFields(e));
    if !ok {
      return -1;
    }
    var path := Cut(e.path);
    ok := f.Fwrite(path);
    if !ok {
      return -1;
    }
    Split(old(f.data), Pack(EntryFields(e)), path);
    if !e.NoClusters() {
      ok := WriteClusters(f, e.clusters);
      if !ok {
        return -1;
      }
      Split(old(f.data), Pack(EntryFields(e)) + path, ClusterBytes(e.clusters));
    } else {
      assert EntryBytes(e) == Pack(EntryFields(e)) + path;
    }
    ret := 0;
  }

  /** backup_create, for the entries the walk over the filesystem finds, unless the walk fails: write failures of single
      entries are ignored, as they are in the source; if the device has room for it all, the file is the backup of these
      entries.  Otherwise the header counts them all the same. */
  method BackupCreate(f: File, h: BackupHeader, model: seq<byte>, es: seq<Entry>, walked: bool) returns (ret: int)
    requires f.data == [] && StorableHeader(h) && forall i :: 0 <= i < |es| ==> Storable(es[i])
    modifies f`data
    ensures FitsSigned(4, h.fsType) && forall i :: 0 <= i < |es| ==> FitsSigned(8, es[i].mtime)
    ensures ret == 0 && |BackupBytes(h, model, es)| <= f.limit ==> f.data == BackupBytes(h, model, es)
    ensures ret in {0, -1}
    ensures ret == 0 <==> walked && |es| > 0 && |BackupHeaderBytes(h, 0, model)| <= f.limit
    ensures ret == 0 ==> BackupHeaderBytes(h, |es| + 1, model) <= f.data
  {
    hide BackupHeaderBytes, EntriesBytes, FitsSigned, Storable, StorableHeader, EntryBytes, Le;
    HeaderTimes(h);
    StorableTimes(es);
    RootStorable();
    StorableTimes([ROOT_ENTRY]);
    ghost var all := [ROOT_ENTRY] + es;
    ghost var fits := |BackupBytes(h, model, es)| <= f.limit;
    CountPatched(h, 0, |es| + 1, model, EntriesBytes(all));
    CountPatched(h, 0, |es| + 1, model, []);
    ret := WriteBackupHeader(f, h, 0, model);
    if ret != 0 {
      return;
    }
    ghost var head := f.data;
    var written := WriteAll(f, [ROOT_ENTRY] + es);
    if !walked || written <= 1 {
      return -1;
    }
    ghost var tail := f.data[|head|..];
    assert head == BackupHeaderBytes(h, 0, model) && f.data == head + tail;
    CountPatched(h, 0, |es| + 1, model, tail);
    PatchCount(f, written);
    assert f.data == BackupHeaderBytes(h, |es| + 1, model) + tail;
    ret := 0;
  }

  /** The entries, one after the other; failures are not looked at. */
  method WriteAll(f: File, es: seq<Entry>) returns (written: nat)
    requires |f.data| <= f.limit && forall i :: 0 <= i < |es| ==> FitsSigned(8, es[i].mtime)
    modifies f`data
    ensures written == |es| && |f.data| <= f.limit
    ensures |old(f.data)| + |EntriesBytes(es)| <= f.limit ==> f.data == old(f.data) + EntriesBytes(es)
    ensures old(f.data) <= f.data
  {
    hide EntryBytes, FitsSigned;
    written := 0;
    for i := 0 to |es|
      invariant written == i && |f.data| <= f.limit && old(f.data) <= f.data
      invariant |old(f.data)| + |EntriesBytes(es)| <= f.limit ==>
                  f.data + EntriesBytes(es[i..]) == old(f.data) + EntriesBytes(es)
    {
      assert es[i..][1..] == es[i + 1..];
      Split(f.data, EntryBytes(es[i]), EntriesBytes(es[i + 1..]));
      var r := WriteBackupEntry(f, es[i]);
      written := written + 1;
    }
  }

  /** fseek to the count field, write_le32, fseek back. */
  method PatchCount(f: File, count: nat)
    requires COUNT_OFFSET + 4 <= |f.data|
    modifies f`data
    ensures f.data == Patched(old(f.data), COUNT_OFFSET, Le(4, count))
  {
    f.data := Patched(f.data, COUNT_OFFSET, Le(4, count));
  }

  // ----- loading -----

  /** The loading loop of backup_restore. */
  method Load(f: File, total: nat) returns (es: seq<Entry>)
    modifies f`pos
    ensures es == LoadEntries(old(f.Rest()), total)
  {
    hide FieldsOf, LoadedEntry, EntrySize, File.Rest, LoadEntries;
    es := [];
    ghost var was := f.Rest();
    for i := 0 to total
      invariant es + LoadEntries(f.Rest(), total - i) == LoadEntries(was, total)
    {
      LoadStep(f.Rest(), total - i);
      ghost var before := f.Rest();
      var ok, e := LoadOne(f);
      if !ok {
        return;
      }
      Split(es, [e], LoadEntries(f.Rest(), total - i - 1));
      es := es + [e];
    }
    LoadStep(f.Rest(), 0);
  }

  /** One entry, or none when the file ends first. */
  method LoadOne(f: File) returns (ok: bool, e: Entry)
    modifies f`pos
    ensures var data := old(f.Rest());
            && (ok <==> |data| >= ENTRY_SIZE && |data| >= EntrySize(FieldsOf(data)))
            && (ok ==> e == LoadedEntry(FieldsOf(data), data) && f.Rest() == data[EntrySize(FieldsOf(data))..])
  {
    hide FieldsOf, EntrySize, LoadedEntry, File.Rest, Total, CStr, Flag, ToSigned, Clusters, AfterClusters;
    ghost var data := f.Rest();
    EntryWidth();
    e := ROOT_ENTRY;
    var v;
    ok, v := f.ReadFields(ENTRY_WIDTHS);
    if !ok {
      return;
    }
    EntryParts(data);
    var pathLen := PathLength(v);
    var path := f.Fread(pathLen);
    if |path| != pathLen {
      ok := false;
      return;
    }
    var clusters := [];
    if v[4] > 0 && !Flag(v[1], NO_CLUSTERS_FLAG) {
      ok, clusters := LoadClusters(f, v[4]);
    }
    e := Entry(CStr(path), v[1], v[2], ToSigned(8, v[3]), clusters);
  }

  /** An entry, from what follows its fixed fields. */
  lemma EntryParts(data: seq<byte>)
    requires |data| >= ENTRY_SIZE
    ensures var v, rest := FieldsOf(data), data[ENTRY_SIZE..];
            && v == (EntryWidth(); Unpack(ENTRY_WIDTHS, data))
            && EntrySize(v) == ENTRY_SIZE + PathLength(v) + (if ClustersPresent(v) then 8 * v[4] else 0)
            && (|rest| >= PathLength(v) ==>
                  LoadedEntry(v, data) == Entry(CStr(rest[..PathLength(v)]), v[1], v[2], ToSigned(8, v[3]),
                                                if ClustersPresent(v) then Clusters(rest[PathLength(v)..], v[4])
                                                  else []))
            && (|data| >= EntrySize(v) ==>
                  data[EntrySize(v)..] == if ClustersPresent(v) then rest[PathLength(v)..][8 * v[4]..]
                    else rest[PathLength(v)..])
  {
    hide Unpack, Total, CStr, Flag, ToSigned, Clusters;
    EntryWidth();
    var v := FieldsOf(data);
    if |data| >= ENTRY_SIZE + PathLength(v) {
      DropTwice(data, ENTRY_SIZE, PathLength(v));
    }
    if |data| >= EntrySize(v) && ClustersPresent(v) {
      DropTwice(data, ENTRY_SIZE + PathLength(v), 8 * v[4]);
    }
  }

  method LoadClusters(f: File, count: nat) returns (ok: bool, clusters: seq<nat>)
    modifies f`pos
    ensures ok <==> 8 * count <= |old(f.Rest())|
    ensures ok ==> clusters == Clusters(old(f.Rest()), count) && f.Rest() == old(f.Rest())[8 * count..]
  {
    hide FromLe, Clusters, AfterClusters, File.Rest;
    clusters := [];
    ghost var was := f.Rest();
    for i := 0 to count
      invariant |was| - |f.Rest()| == 8 * i
      invariant clusters + Clusters(f.Rest(), count - i) == Clusters(was, count)
      invariant AfterClusters(f.Rest(), count - i) == AfterClusters(was, count)
    {
      ClustersStep(f.Rest(), count - i);
      var b := f.Fread(8);
      if |b| != 8 {
        return false, [];
      }
      Split(clusters, [FromLe(b)], Clusters(f.Rest(), count - i - 1));
      clusters := clusters + [FromLe(b)];
    }
    ClustersStep(f.Rest(), 0);
    AfterAll(was, count);
    ok := true;
  }

  lemma AfterAll(data: seq<byte>, n: nat)
    ensures 8 * n <= |data| ==> AfterClusters(data, n) == data[8 * n..]
  {
  }

  // ----- comparing -----

  /** backup_restore_build_tree; the live entries come from qsort. */
  method BackupRestoreBuildTree(tree: ScanTree, es: seq<Entry>, s: Setting)
    returns (processed: nat, deleted: nat, modified: nat)
    requires tree.Valid() && s.sectorSize > 0
    requires forall i :: 0 <= i < |es| ==> 0 !in es[i].path
    modifies tree
    ensures tree.Valid() && tree.Root() == Built(old(tree.Root()), s, es)
    ensures processed == |es|
    ensures deleted == |Filtered(s, es, Deleted)| && modified == |Filtered(s, es, Modified)|
  {
    hide Built, Step, Judge;
    processed, deleted, modified := 0, 0, 0;
    ghost var root := tree.Root();
    BuiltStep(root, s, es[..0]);
    for i := 0 to |es|
      invariant tree.Valid() && tree.Root() == Built(root, s, es[..i])
      invariant processed == i
      invariant deleted == |Filtered(s, es[..i], Deleted)| && modified == |Filtered(s, es[..i], Modified)|
    {
      BuiltAppend(root, s, es[..i], es[i]);
      FilteredAppend(s, es[..i], es[i], Deleted);
      FilteredAppend(s, es[..i], es[i], Modified);
      assert es[..i + 1] == es[..i] + [es[i]];
      var verdict := Compare(s, es[i]);
      if verdict == Deleted {
        deleted := deleted + 1;
      } else if verdict == Modified {
        modified := modified + 1;
      }
      processed := processed + 1;
      StepUnselected(tree.Root(), s, es[i]);
      if verdict != Unchanged {
        RestoreEntry(tree, s, es[i], verdict);
      }
    }
    assert es[..|es|] == es;
  }

  /** The entries with a given verdict. */
  ghost function Filtered(s: Setting, es: seq<Entry>, v: Verdict): seq<Entry> {
    if |es| == 0 then []
    else Filtered(s, es[..|es| - 1], v) + if Judge(s.live, es[|es| - 1]) == v then [es[|es| - 1]] else []
  }

  lemma FilteredAppend(s: Setting, es: seq<Entry>, e: Entry, v: Verdict)
    ensures Filtered(s, es + [e], v) == Filtered(s, es, v) + if Judge(s.live, e) == v then [e] else []
  {
    hide Judge;
    assert (es + [e])[..|es|] == es;
  }

  /** The comparison with the live entry of the same path. */
  method Compare(s: Setting, e: Entry) returns (verdict: Verdict)
    ensures verdict == Judge(s.live, e)
  {
    var live := FindLiveEntry(s.live, e.path);
    if live < 0 {
      verdict := Deleted;
    } else if s.live[live].fileSize != e.fileSize || s.live[live].mtime != e.mtime {
      verdict := Modified;
    } else {
      verdict := Unchanged;
    }
  }

  method RestoreEntry(tree: ScanTree, s: Setting, e: Entry, verdict: Verdict)
    requires tree.Valid() && s.sectorSize > 0 && verdict == Judge(s.live, e) && verdict != Unchanged && 0 !in e.path
    modifies tree
    ensures tree.Valid() && tree.Root() == Step(old(tree.Root()), s, e)
  {
    hide Tokens, Flag, AddPath, Put, Linked, WellNamed, Abs, CountFiles, Resolve, Lookup, Judge, SectorsFor,
         Entry.IsDir, Entry.NoClusters;
    var numSectors := SectorsFor(e.fileSize, s.sectorSize);
    var attrs := Attrs(e.IsDir(), e.fileSize, 0, numSectors, e.mtime, s.sectorSize, verdict == Deleted);
    var node := tree.TreeAddPath(e.path, attrs);
    ResolveIsLookup(tree.nodes, 0, Tokens(e.path));
    AbsInfo(tree.nodes, node);
    var info := tree.nodes[node].info.(backupRestored := true, backupModified := verdict == Modified);
    if !e.IsDir() && !e.NoClusters() && |e.clusters| > 0 {
      info := info.(clusterList := e.clusters, clusterSize := s.clusterBytes);
    }
    tree.SetInfo(node, info, Tokens(e.path));
  }

  /** backup_restore from the start of a file; `walked` are the sorted entries of the live filesystem, None if it cannot
      be opened or walked. */
  method BackupRestore(f: File, tree: ScanTree, diskSize: nat, sectorSize: nat, walked: Option<seq<Entry>>)
    returns (ret: int)
    requires f.pos == 0 && tree.Valid() && sectorSize > 0
    modifies f`pos, tree
    ensures tree.Valid() && ret in {0, -1}
    ensures ret == 0 <==> Acceptable(f.data, diskSize) && walked.Some?
    ensures ret == 0 ==>
              var s := Setting(walked.value, sectorSize, BackupHeaderOf(f.data)[8]);
              tree.Root() == Built(old(tree.Root()), s, EntriesIn(f.data))
    ensures ret == -1 ==> tree.Root() == old(tree.Root())
  {
    hide Unpack, Total, LoadEntries, Built, SizeMatches, Linked, Padded;
    ghost var data := f.data;
    RestFromStart(f);
    BackupWidth();
    var ok, v := f.ReadFields(BACKUP_WIDTHS);
    if !ok || v[0] != MAGIC_NUMBER || v[1] != FORMAT_VERSION {
      return -1;
    }
    assert v == BackupHeaderOf(data);
    if !SizeMatches(OriginalSize(v), diskSize) {
      return -1;
    }
    var modelLen := if v[12] > 512 then 512 else v[12];
    // fseek past the model and the padding
    f.pos := Padded(HEADER_SIZE + modelLen);
    var es := Load(f, v[11]);
    LoadedPaths(if EntriesStart(v) <= |data| then data[EntriesStart(v)..] else [], v[11]);
    if walked.None? {
      return -1;
    }
    var processed, deleted, modified := BackupRestoreBuildTree(tree, es, Setting(walked.value, sectorSize, v[8]));
    ret := 0;
  }

  lemma PathHasNoNul(v: seq<nat>, data: seq<byte>)
    requires |v| == 6 && |data| >= ENTRY_SIZE + PathLength(v)
    ensures 0 !in LoadedEntry(v, data).path
  {
  }

  lemma {:induction false} LoadedPaths(data: seq<byte>, n: nat)
    ensures forall i :: 0 <= i < |LoadEntries(data, n)| ==> 0 !in LoadEntries(data, n)[i].path
    decreases n
  {
    hide FieldsOf, EntrySize, LoadedEntry, LoadEntries;
    LoadStep(data, n);
    if n > 0 && |data| >= ENTRY_SIZE && |data| >= EntrySize(FieldsOf(data)) {
      PathHasNoNul(FieldsOf(data), data);
      LoadedPaths(data[EntrySize(FieldsOf(data))..], n - 1);
    }
  }

  /** From the disk and back into the tree: a file that was backed up, and is gone or changed since, is restored with
      everything that was recorded of it. */
  lemma BackedUpEntryIsRestored(t: Tree, h: BackupHeader, model: seq<byte>, es: seq<Entry>, s: Setting, i: nat)
    requires StorableHeader(h) && |es| + 1 < Limit(4) && s.sectorSize > 0 && i < |es|
    requires forall k :: 0 <= k < |es| ==> Storable(es[k]) && |es[k].path| <= LONGEST_PATH
    requires Selected(s, es[i]) && |Names(es[i])| > 0 && |Lookup(t, Names(es[i]))| == 0
    requires ParentsFirst(s, [Stored(ROOT_ENTRY)] + AllStored(es), i + 1)
    ensures FitsSigned(4, h.fsType) && forall k :: 0 <= k < |es| ==> FitsSigned(8, es[k].mtime)
    ensures |BackupBytes(h, model, es)| >= HEADER_SIZE
    ensures var node := Lookup(Built(t, s, EntriesIn(BackupBytes(h, model, es))), Names(es[i]));
            |node| == 1 && node[0].info == RestoredNode(s, Stored(es[i]))
  {
    hide Built, Storable, StorableHeader, EntriesIn, BackupBytes, ParentsFirst, Lookup, Limit, RestoredNode;
    BackupRoundTrip(h, model, es, 0);
    var all := [Stored(ROOT_ENTRY)] + AllStored(es);
    assert all[i + 1] == Stored(es[i]);
    BuiltHasEntry(t, s, all, i + 1);
  }

  /** From the disk and back: every cluster that was recorded of a file is in its node again. */
  lemma BackedUpClustersAreRestored(t: Tree, h: BackupHeader, model: seq<byte>, es: seq<Entry>, s: Setting, i: nat)
    requires StorableHeader(h) && |es| + 1 < Limit(4) && s.sectorSize > 0 && i < |es|
    requires forall k :: 0 <= k < |es| ==> Storable(es[k]) && |es[k].path| <= LONGEST_PATH
    requires Selected(s, Stored(es[i]))
    requires forall j :: i < j < |es| && Selected(s, Stored(es[j])) ==> Names(es[j]) != Names(es[i])
    requires es[i].flags % 2 == 0 && es[i].flags / 2 % 2 == 0 && |es[i].clusters| > 0
    ensures FitsSigned(4, h.fsType) && forall k :: 0 <= k < |es| ==> FitsSigned(8, es[k].mtime)
    ensures |BackupBytes(h, model, es)| >= HEADER_SIZE
    ensures ClustersAt(Built(t, s, EntriesIn(BackupBytes(h, model, es))), Names(es[i]))
            == (es[i].clusters, s.clusterBytes)
  {
    hide Built, Storable, StorableHeader, EntriesIn, BackupBytes, Lookup, Limit, Judge, Tokens, ClustersAt;
    BackupRoundTrip(h, model, es, 0);
    var all := [Stored(ROOT_ENTRY)] + AllStored(es);
    assert all[i + 1] == Stored(es[i]);
    forall j | i + 1 < j < |all| && Selected(s, all[j])
      ensures Names(all[j]) != Names(all[i + 1])
    {
      assert all[j] == Stored(es[j - 1]);
    }
    BuiltClusters(t, s, all, i + 1);
  }

  /** From the disk and back into the tree, for every path and every tree. */
  lemma BackupIsEffects(t: Tree, h: BackupHeader, model: seq<byte>, es: seq<Entry>, s: Setting, p: seq<Name>)
    requires StorableHeader(h) && |es| + 1 < Limit(4) && s.sectorSize > 0
    requires forall k :: 0 <= k < |es| ==> Storable(es[k]) && |es[k].path| <= LONGEST_PATH
    ensures FitsSigned(4, h.fsType) && forall k :: 0 <= k < |es| ==> FitsSigned(8, es[k].mtime)
    ensures |BackupBytes(h, model, es)| >= HEADER_SIZE
    ensures InfosAt(Built(t, s, EntriesIn(BackupBytes(h, model, es))), p)
            == Effects(InfosAt(t, p), s, [Stored(ROOT_ENTRY)] + AllStored(es), p)
  {
    hide Built, Storable, StorableHeader, EntriesIn, BackupBytes, Lookup, Limit, Effects;
    BackupRoundTrip(h, model, es, 0);
    BuiltIsEffects(t, s, [Stored(ROOT_ENTRY)] + AllStored(es), p);
  }
}
