/** Where session and backup files keep what: src/core/session.c:107-432, src/core/backup.c:432-523. */
module Layouts {
  import opened Arith
  import opened Bits
  import opened Disks
  import opened LittleEndian
  import opened PathTree
  import opened SessionFormat
  import SessionHeader
  import BackupFormat

  // ----- session files -----

  /** The k-th of the 8-byte numbers at `at`. */
  function Number(b: seq<byte>, at: nat, k: nat): nat
    requires at + 8 * k + 8 <= |b|
  {
    FromLe(b[at + 8 * k..at + 8 * k + 8])
  }

  lemma {:induction false} ClusterAt(clusters: seq<nat>, k: nat)
    requires k < |clusters| && forall i :: 0 <= i < |clusters| ==> clusters[i] < Limit(8)
    ensures Number(ClusterBytes(clusters), 0, k) == clusters[k]
  {
    hide Le, FromLe, Limit;
    var b, rest := ClusterBytes(clusters), ClusterBytes(clusters[1..]);
    if k == 0 {
      LeRoundTrip(8, clusters[0]);
      assert b[0..8] == Le(8, clusters[0]);
    } else {
      ClusterAt(clusters[1..], k - 1);
      assert b[8 * k..8 * k + 8] == rest[8 * (k - 1)..8 * (k - 1) + 8];
    }
  }

  /** Behind other bytes. */
  lemma NumberBehind(a: seq<byte>, b: seq<byte>, k: nat)
    requires 8 * k + 8 <= |b|
    ensures Number(a + b, |a|, k) == Number(b, 0, k)
  {
    assert (a + b)[|a| + 8 * k..|a| + 8 * k + 8] == b[8 * k..8 * k + 8];
  }

  /** The fields between the length and the path. */
  lemma RecordFields(b: seq<byte>)
    requires |b| >= FIXED
    ensures Total(WIDTHS) == FIXED
    ensures Unpack(WIDTHS, b) == [FromLe(b[..1]), FromLe(b[1..9]), FromLe(b[9..17]), FromLe(b[17..25]),
                                  FromLe(b[25..33]), FromLe(b[33..37]), FromLe(b[37..41]), FromLe(b[41..45])]
  {
    hide FromLe, Unpack, Total;
    FixedWidth();
    var ws := WIDTHS;
    TotalNone(ws);
    assert b[0..1] == b[..1];
    TotalNext(ws, 0);
    TotalNext(ws, 1);
    TotalNext(ws, 2);
    TotalNext(ws, 3);
    TotalNext(ws, 4);
    TotalNext(ws, 5);
    TotalNext(ws, 6);
    UnpackAt(ws, b, 0);
    UnpackAt(ws, b, 1);
    UnpackAt(ws, b, 2);
    UnpackAt(ws, b, 3);
    UnpackAt(ws, b, 4);
    UnpackAt(ws, b, 5);
    UnpackAt(ws, b, 6);
    UnpackAt(ws, b, 7);
  }

  /** A signed number of n bytes, as it is stored. */
  function Unsigned(n: nat, v: int): int {
    if v < 0 then v + Limit(n) else v
  }

  /** The record of a node: path length, flags, sizes, time, clusters, path. */
  ghost predicate IsRecord(b: seq<byte>, path: seq<byte>, i: Info) {
    var end := 47 + |path|;
    && |b| == end + 8 * |i.clusterList|
    && FromLe(b[..2]) == |path| && b[47..end] == path
    && b[2] as int == Bit(i.isDir) + 2 * Bit(i.marked) + 4 * Bit(i.deleted) + 8 * Bit(i.orphan) + 16 * Bit(i.expanded)
                        + 32 * Bit(i.backupRestored) + 64 * Bit(i.backupModified)
    && FromLe(b[3..11]) == i.size && FromLe(b[11..19]) == i.firstSector && FromLe(b[19..27]) == i.numSectors
    && FromLe(b[27..35]) == Unsigned(8, i.mtime) && FromLe(b[35..39]) == i.sectorSize
    && FromLe(b[39..43]) == |i.clusterList| && FromLe(b[43..47]) == i.clusterSize
    && forall k :: 0 <= k < |i.clusterList| ==> Number(b, end, k) == i.clusterList[k]
  }

  lemma RecordLayout(path: seq<byte>, i: Info)
    requires SavableInfo(i) && |path| < MAX_PATH
    ensures IsRecord(RecordBytes(path, i), path, i)
  {
    hide FromLe, Limit, Unpack, ClusterBytes, Total, RecordBytes, Le;
    var b, end := RecordBytes(path, i), 47 + |path|;
    RecordPieces(path, i, []);
    assert b + [] == b && ClusterBytes(i.clusterList) + [] == ClusterBytes(i.clusterList);
    RecordFields(b[2..]);
    FieldsBehind(b);
    assert b == b[..end] + b[end..];
    forall k | 0 <= k < |i.clusterList|
      ensures Number(b, end, k) == i.clusterList[k]
    {
      ClusterAt(i.clusterList, k);
      NumberBehind(b[..end], b[end..], k);
    }
  }

  lemma FieldsBehind(b: seq<byte>)
    requires |b| >= 47
    ensures var c := b[2..];
            && FromLe(c[..1]) == b[2] && c[1..9] == b[3..11] && c[9..17] == b[11..19] && c[17..25] == b[19..27]
            && c[25..33] == b[27..35] && c[33..37] == b[35..39] && c[37..41] == b[39..43] && c[41..45] == b[43..47]
  {
    var n := |b|;
    assert b[2..n] == b[2..];
    Within(b, 2, n, 1, 9);
    Within(b, 2, n, 9, 17);
    Within(b, 2, n, 17, 25);
    Within(b, 2, n, 25, 33);
    Within(b, 2, n, 33, 37);
    Within(b, 2, n, 37, 41);
    Within(b, 2, n, 41, 45);
    assert b[2..][..1] == [b[2]] && [b[2]][1..] == [];
    assert FromLe([b[2]]) == b[2] + 256 * FromLe([]);
  }

  const HEADER_PLACES: seq<nat> := [0, 4, 8, 12, 20, 28, 36, 40, 48, 52, 60, 68, 76, 80, 84, 88, 96, 98, 100, 102]

  lemma {:induction false} HeaderPlace(k: nat)
    requires k < 20
    ensures Total(SessionHeader.HEADER_WIDTHS[..k]) == HEADER_PLACES[k]
  {
    hide Total;
    if k == 0 {
      TotalNone(SessionHeader.HEADER_WIDTHS);
    } else {
      HeaderPlace(k - 1);
      TotalNext(SessionHeader.HEADER_WIDTHS, k - 1);
    }
  }

  /** The k-th field, in the whole header. */
  lemma HeaderFieldAt(b: seq<byte>, k: nat)
    requires |b| >= 116 && k < 20
    ensures var at := 12 + HEADER_PLACES[k];
            && at + SessionHeader.HEADER_WIDTHS[k] <= 116
            && SessionHeader.HeaderOf(b)[k] == FromLe(b[at..at + SessionHeader.HEADER_WIDTHS[k]])
  {
    hide FromLe, Unpack, Total;
    SessionHeader.HeaderWidth();
    HeaderPlace(k);
    UnpackAt(SessionHeader.HEADER_WIDTHS, b[12..], k);
    assert b[12..|b|] == b[12..];
    Within(b, 12, |b|, HEADER_PLACES[k], HEADER_PLACES[k] + SessionHeader.HEADER_WIDTHS[k]);
  }

  /** The header of a session file: a magic string, twenty numbers, three strings, zeros up to a multiple of 8.  Flag 8
      says that the partition, at its own offset, was decrypted. */
  ghost predicate IsSessionHeader(b: seq<byte>, h: SessionHeader.Header) {
    var device, filter := h.device[..|h.device| % 0x1_0000], h.filter[..|h.filter| % 0x1_0000];
    var model := if |h.model| > 256 then [] else h.model;
    var end := 116 + |device| + |model| + |filter|;
    var decrypted := h.flags / 8 % 2 == 1;
    && end <= |b| < end + 8 && |b| % 8 == 0
    && b[..12] == [82, 69, 67, 79, 86, 82, 89, 95, 83, 69, 83, 0]
    && FromLe(b[12..16]) == 1 && FromLe(b[16..20]) == h.flags && FromLe(b[20..24]) == h.opType
    && FromLe(b[24..32]) == h.timestamp && FromLe(b[32..40]) == h.progress1 && FromLe(b[40..48]) == h.progress2
    && FromLe(b[48..52]) == Unsigned(4, h.resumePhase) && FromLe(b[52..60]) == h.resumeOffset
    && FromLe(b[60..64]) == h.sectorSize && FromLe(b[64..72]) == h.diskSize && FromLe(b[72..80]) == h.partOffset
    && FromLe(b[80..88]) == h.partSize && FromLe(b[88..92]) == h.upartType && FromLe(b[92..96]) == h.partTypeI386
    && FromLe(b[96..100]) == Bit(decrypted) && FromLe(b[100..108]) == (if decrypted then h.partOffset else 0)
    && FromLe(b[108..110]) == |device| && FromLe(b[110..112]) == |model| && FromLe(b[112..114]) == |filter|
    && FromLe(b[114..116]) == 0
    && b[116..end] == device + model + filter && b[end..] == NulBytes(|b| - end)
  }

  lemma SessionHeaderLayout(h: SessionHeader.Header)
    requires SessionHeader.SavableHeader(h)
    ensures IsSessionHeader(SessionHeader.HeaderBytes(h), h)
  {
    hide FromLe, Unpack, Total, Limit, SessionHeader.HeaderFields, Pack, SessionHeader.InfoOf;
    var b := SessionHeader.HeaderBytes(h);
    SessionHeader.HeaderRoundTrip(h, []);
    assert b + [] == b;
    HeaderFieldAt(b, 0);
    HeaderFieldAt(b, 1);
    HeaderFieldAt(b, 2);
    HeaderFieldAt(b, 3);
    HeaderFieldAt(b, 4);
    HeaderFieldAt(b, 5);
    HeaderFieldAt(b, 6);
    HeaderFieldAt(b, 7);
    HeaderFieldAt(b, 8);
    HeaderFieldAt(b, 9);
    HeaderFieldAt(b, 10);
    HeaderFieldAt(b, 11);
    HeaderFieldAt(b, 12);
    HeaderFieldAt(b, 13);
    HeaderFieldAt(b, 14);
    HeaderFieldAt(b, 15);
    HeaderFieldAt(b, 16);
    HeaderFieldAt(b, 17);
    HeaderFieldAt(b, 18);
    HeaderFieldAt(b, 19);
    HeaderEnds(h);
  }

  /** The ends of the header. */
  lemma HeaderEnds(h: SessionHeader.Header)
    requires SessionHeader.SavableHeader(h)
    ensures var b, strings := SessionHeader.HeaderBytes(h), SessionHeader.Strings(h);
            var end := 116 + |strings|;
            && end <= |b| < end + 8 && |b| % 8 == 0 && b[..12] == SessionHeader.MAGIC
            && b[116..end] == strings && b[end..] == NulBytes(|b| - end)
  {
    hide SessionHeader.Strings, Pack, Total;
    SessionHeader.HeaderHolds(h);
    SessionHeader.HeaderWidth();
    UnpackOfPack(SessionHeader.HeaderFields(h), SessionHeader.HEADER_WIDTHS, SessionHeader.HeaderValues(h), []);
    var end := 116 + |SessionHeader.Strings(h)|;
    FourParts(SessionHeader.MAGIC, Pack(SessionHeader.HeaderFields(h)), SessionHeader.Strings(h),
              NulBytes(SessionHeader.Padded(end) - end));
  }

  lemma FourParts(a: seq<byte>, b: seq<byte>, c: seq<byte>, d: seq<byte>)
    ensures var s := a + b + c + d;
            && s[..|a|] == a && s[|a| + |b|..|a| + |b| + |c|] == c && s[|a| + |b| + |c|..] == d
  {
  }

  /** A file is loaded exactly when it starts with the magic string and this version, and its header is all there. */
  lemma LoadableIff(b: seq<byte>)
    ensures SessionHeader.Loadable(b) <==>
              && |b| >= 116 && b[..12] == [82, 69, 67, 79, 86, 82, 89, 95, 83, 69, 83, 0] && FromLe(b[12..16]) == 1
              && (116 + FromLe(b[108..110]) + FromLe(b[110..112]) + FromLe(b[112..114]) + 7) / 8 * 8 <= |b|
  {
    hide FromLe, SessionHeader.HeaderOf;
    if |b| >= 116 {
      HeaderFieldAt(b, 0);
      HeaderFieldAt(b, 16);
      HeaderFieldAt(b, 17);
      HeaderFieldAt(b, 18);
    }
  }

  /** A path length of 4096 or more ends the records, and so does a record that is cut short. */
  lemma RecordsEnd(b: seq<byte>, t: Tree)
    requires |b| < 2 || FromLe(b[..2]) >= 4096 || |b| < 47 + FromLe(b[..2])
    ensures ParseEntries(b, t) == t
  {
  }

  // ----- backup files -----

  const ENTRY_PLACES: seq<nat> := [0, 2, 3, 11, 19, 23]
  const BACKUP_PLACES: seq<nat> := [0, 4, 8, 12, 16, 24, 28, 36, 44, 48, 56, 64, 68, 70]

  lemma {:induction false} EntryPlace(k: nat)
    requires k < 6
    ensures Total(BackupFormat.ENTRY_WIDTHS[..k]) == ENTRY_PLACES[k]
  {
    hide Total;
    if k == 0 {
      TotalNone(BackupFormat.ENTRY_WIDTHS);
    } else {
      EntryPlace(k - 1);
      TotalNext(BackupFormat.ENTRY_WIDTHS, k - 1);
    }
  }

  lemma {:induction false} BackupPlace(k: nat)
    requires k < 14
    ensures Total(BackupFormat.BACKUP_WIDTHS[..k]) == BACKUP_PLACES[k]
  {
    hide Total;
    if k == 0 {
      TotalNone(BackupFormat.BACKUP_WIDTHS);
    } else {
      BackupPlace(k - 1);
      TotalNext(BackupFormat.BACKUP_WIDTHS, k - 1);
    }
  }

  /** The k-th field of an entry, and of a header. */
  lemma EntryFieldAt(b: seq<byte>, k: nat)
    requires |b| >= 27 && k < 6
    ensures var at, w := ENTRY_PLACES[k], BackupFormat.ENTRY_WIDTHS[k];
            at + w <= 27 && BackupFormat.FieldsOf(b)[k] == FromLe(b[at..at + w])
  {
    hide FromLe, Unpack, Total;
    BackupFormat.EntryWidth();
    EntryPlace(k);
    UnpackAt(BackupFormat.ENTRY_WIDTHS, b, k);
  }

  lemma BackupFieldAt(b: seq<byte>, k: nat)
    requires |b| >= 72 && k < 14
    ensures var at, w := BACKUP_PLACES[k], BackupFormat.BACKUP_WIDTHS[k];
            at + w <= 72 && BackupFormat.BackupHeaderOf(b)[k] == FromLe(b[at..at + w])
  {
    hide FromLe, Unpack, Total;
    BackupFormat.BackupWidth();
    BackupPlace(k);
    UnpackAt(BackupFormat.BACKUP_WIDTHS, b, k);
  }

  /** An entry: path length, flags, size, time, cluster count, path, and the clusters unless flag 2 is set. */
  ghost predicate IsBackupEntry(b: seq<byte>, e: BackupFormat.Entry) {
    var end, count := 27 + |e.path|, if e.flags / 2 % 2 == 1 then 0 else |e.clusters|;
    && |b| == end + 8 * count
    && FromLe(b[0..2]) == |e.path| && FromLe(b[2..3]) == e.flags && FromLe(b[3..11]) == e.fileSize
    && FromLe(b[11..19]) == Unsigned(8, e.mtime) && FromLe(b[19..23]) == |e.clusters| && FromLe(b[23..27]) == 0
    && b[27..end] == e.path
    && forall k :: 0 <= k < count ==> Number(b, end, k) == e.clusters[k]
  }

  lemma BackupEntryLayout(e: BackupFormat.Entry)
    requires BackupFormat.Storable(e)
    ensures IsBackupEntry(BackupFormat.EntryBytes(e), e)
  {
    hide FromLe, Limit, Unpack, ClusterBytes, Total, Pack, Le, Clusters, CStr, BackupFormat.EntrySize,
         BackupFormat.LoadedEntry, FitsSigned, BackupFormat.FieldsOf;
    var b, end := BackupFormat.EntryBytes(e), 27 + |e.path|;
    Limits();
    BackupFormat.EntryWidth();
    BackupFormat.EntryHolds(e);
    UnpackOfPack(BackupFormat.EntryFields(e), BackupFormat.ENTRY_WIDTHS, BackupFormat.Values(e), []);
    BackupFormat.EntryRoundTrip(e, []);
    assert b + [] == b;
    EntryFieldAt(b, 0);
    EntryFieldAt(b, 1);
    EntryFieldAt(b, 2);
    EntryFieldAt(b, 3);
    EntryFieldAt(b, 4);
    EntryFieldAt(b, 5);
    if !e.NoClusters() {
      var a := Pack(BackupFormat.EntryFields(e)) + e.path;
      assert b == a + ClusterBytes(e.clusters);
      forall k | 0 <= k < |e.clusters|
        ensures Number(b, end, k) == e.clusters[k]
      {
        ClusterAt(e.clusters, k);
        NumberBehind(a, ClusterBytes(e.clusters), k);
      }
    }
  }

  /** The header of a backup file, with the first 255 bytes of the disk model, and zeros up to a multiple of 8. */
  ghost predicate IsBackupHeader(b: seq<byte>, h: BackupFormat.BackupHeader, count: nat, model: seq<byte>) {
    var m := if |model| > 255 then model[..255] else model;
    var end := 72 + |m|;
    && end <= |b| < end + 8 && |b| % 8 == 0
    && FromLe(b[0..4]) == 0x4453_4B42 && FromLe(b[4..8]) == 1 && FromLe(b[8..12]) == h.flags
    && FromLe(b[12..16]) == Unsigned(4, h.fsType) && FromLe(b[16..24]) == h.diskSize
    && FromLe(b[24..28]) == h.sectorSize && FromLe(b[28..36]) == h.partOffset && FromLe(b[36..44]) == h.partSize
    && FromLe(b[44..48]) == h.clusterBytes && FromLe(b[48..56]) == h.dataOffset && FromLe(b[56..64]) == h.created
    && FromLe(b[64..68]) == count && FromLe(b[68..70]) == |m| && FromLe(b[70..72]) == 0
    && b[72..end] == m && b[end..] == NulBytes(|b| - end)
  }

  lemma BackupHeaderLayout(h: BackupFormat.BackupHeader, count: nat, model: seq<byte>)
    requires BackupFormat.StorableHeader(h) && count < Limit(4)
    ensures FitsSigned(4, h.fsType)
    ensures IsBackupHeader(BackupFormat.BackupHeaderBytes(h, count, model), h, count, model)
  {
    hide FromLe, Limit, Unpack, Total, Pack, FitsSigned, BackupFormat.BackupHeaderOf;
    BackupFormat.HeaderTimes(h);
    var b := BackupFormat.BackupHeaderBytes(h, count, model);
    BackupFormat.BackupHeaderRoundTrip(h, count, model, []);
    assert b + [] == b;
    BackupFieldAt(b, 0);
    BackupFieldAt(b, 1);
    BackupFieldAt(b, 2);
    BackupFieldAt(b, 3);
    BackupFieldAt(b, 4);
    BackupFieldAt(b, 5);
    BackupFieldAt(b, 6);
    BackupFieldAt(b, 7);
    BackupFieldAt(b, 8);
    BackupFieldAt(b, 9);
    BackupFieldAt(b, 10);
    BackupFieldAt(b, 11);
    BackupFieldAt(b, 12);
    BackupFieldAt(b, 13);
    var fields := Pack(BackupFormat.BackupFields(h, count, model));
    BackupFormat.BackupWidth();
    BackupFormat.BackupHolds(h, count, model);
    UnpackOfPack(BackupFormat.BackupFields(h, count, model), BackupFormat.BACKUP_WIDTHS,
                 BackupFormat.BackupValues(h, count, model), []);
    var m := BackupFormat.ShortModel(model);
    FourParts([], fields, m, NulBytes(SessionHeader.Padded(72 + |m|) - 72 - |m|));
    assert [] + fields == fields;
  }

  /** A file is accepted exactly when it starts with a header of this format, and the disk has at least half and at most
      one and a half of the size it is to have: that of the partition, or of the disk for a backup of a whole one. */
  lemma AcceptedIff(data: seq<byte>, diskSize: nat)
    ensures BackupFormat.Acceptable(data, diskSize) <==>
              && |data| >= 72 && FromLe(data[0..4]) == 0x4453_4B42 && FromLe(data[4..8]) == 1
              && var disk, offset, part := FromLe(data[16..24]), FromLe(data[28..36]), FromLe(data[36..44]);
              var size := if offset == 0 || part == 0 then disk else part;
              size == 0 || size <= 2 * diskSize <= 3 * size
  {
    hide FromLe, BackupFormat.BackupHeaderOf;
    if |data| >= 72 {
      BackupFieldAt(data, 0);
      BackupFieldAt(data, 1);
      BackupFieldAt(data, 4);
      BackupFieldAt(data, 6);
      BackupFieldAt(data, 7);
    }
  }

  /** The backup of a partition that does not start at 0 is accepted on its own disk exactly when the partition takes at
      least two thirds of it. */
  lemma AcceptedAtHome(h: BackupFormat.BackupHeader, model: seq<byte>, es: seq<BackupFormat.Entry>)
    requires BackupFormat.StorableHeader(h) && |es| + 1 < Limit(4)
    requires forall i :: 0 <= i < |es| ==> BackupFormat.Storable(es[i]) && |es[i].path| <= 4095
    requires h.partOffset > 0 && 0 < h.partSize <= h.diskSize
    ensures FitsSigned(4, h.fsType) && forall i :: 0 <= i < |es| ==> FitsSigned(8, es[i].mtime)
    ensures BackupFormat.Acceptable(BackupFormat.BackupBytes(h, model, es), h.diskSize)
            <==> 2 * h.diskSize <= 3 * h.partSize
  {
    hide BackupFormat.Acceptable, BackupFormat.BackupBytes, BackupFormat.Storable, Limit, FitsSigned,
         BackupFormat.EntriesIn;
    BackupFormat.BackupRoundTrip(h, model, es, h.diskSize);
  }
}
