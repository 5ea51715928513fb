/** src/core/restore.c: raw restore of files known by a cluster list or by a sector range. */
module Restore {
  import opened Arith
  import opened Disks
  import opened Files
  import opened Wrappers

  const BUFFER_SIZE: nat := 65536
  const MAX_PREVIEW: nat := 64 * 1024 * 1024

  datatype CopyResult = CpOk | CpReadFailed | CpNoSpace

  /** What restore needs of a file_node_t. */
  datatype Node = Node(size: nat, firstSector: nat, numSectors: nat, orphan: bool,
                       clusterList: Option<seq<nat>>, clusterSize: nat)

  /** cluster_list != NULL && cluster_count > 0 && cluster_size > 0 */
  predicate HasClusters(n: Node) {
    n.clusterList.Some? && |n.clusterList.value| > 0 && n.clusterSize > 0
  }

  /** Byte k of `out` is the disk byte k % take of cluster k / take. */
  ghost predicate Gathered(out: seq<byte>, content: seq<byte>, base: nat, clusters: seq<nat>, take: nat) {
    && take > 0 && |out| <= |clusters| * take
    && forall k :: 0 <= k < |out| ==> GatheredAt(out, k, content, base, clusters, take)
  }

  ghost predicate GatheredAt(out: seq<byte>, k: nat, content: seq<byte>, base: nat, clusters: seq<nat>, take: nat)
    requires k < |out| && take > 0
  {
    && k / take < |clusters|
    && base + clusters[k / take] + k % take < |content|
    && out[k] == content[base + clusters[k / take] + k % take]
  }

  /** Appending bytes of cluster `ci` after its first `done` bytes. */
  lemma GatherMore(out: seq<byte>, data: seq<byte>, content: seq<byte>, base: nat, clusters: seq<nat>, take: nat,
                   ci: nat, done: nat)
    requires Gathered(out, content, base, clusters, take) && |out| == ci * take + done
    requires ci < |clusters| && done + |data| <= take
    requires base + clusters[ci] + done + |data| <= |content|
    requires data == content[base + clusters[ci] + done..base + clusters[ci] + done + |data|]
    ensures Gathered(out + data, content, base, clusters, take)
  {
    var r := out + data;
    forall k | 0 <= k < |r|
      ensures GatheredAt(r, k, content, base, clusters, take)
    {
      if k < |out| {
        assert GatheredAt(out, k, content, base, clusters, take);
      } else if done + (k - |out|) < take {
        DivModUnique(k, ci, take, done + (k - |out|));
        assert r[k] == data[k - |out|];
      }
    }
    assert ci * take + take == (ci + 1) * take;
    assert (ci + 1) * take <= |clusters| * take by {
      MulMono(ci + 1, |clusters|, take);
    }
  }

  lemma MulMono(a: nat, b: nat, k: nat)
    requires a <= b
    ensures a * k <= b * k
  {
    assert b * k == a * k + (b - a) * k;
  }

  /** Every byte the node claims lies on the disk. */
  ghost predicate OnDisk(n: Node, base: nat, size: nat)
    requires HasClusters(n)
  {
    forall ci :: 0 <= ci < |n.clusterList.value| ==> base + n.clusterList.value[ci] + Min(n.clusterSize, n.size) <= size
  }

  /** What read_file_bytes shows of a file with clusters. */
  ghost predicate IsPreview(out: seq<byte>, content: seq<byte>, base: nat, n: Node)
    requires HasClusters(n)
  {
    && |out| == Min(n.size, |n.clusterList.value| * n.clusterSize)
    && Gathered(out, content, base, n.clusterList.value, n.clusterSize)
  }

  /** The part of a cluster that restore_orphan copies. */
  function Taken(n: Node): nat {
    Min(n.clusterSize, BUFFER_SIZE)
  }

  /** What restore_orphan writes for a file with clusters. */
  ghost predicate IsRestored(out: seq<byte>, content: seq<byte>, base: nat, n: Node)
    requires HasClusters(n)
  {
    && |out| == Min(n.size, |n.clusterList.value| * Taken(n))
    && Gathered(out, content, base, n.clusterList.value, Taken(n))
  }

  /** The inner loop of read_file_bytes: `clusterBytes` bytes of cluster `ci`, in chunks. */
  method AppendCluster(disk: Disk, base: nat, clusters: seq<nat>, ci: nat, wanted: nat, out0: seq<byte>, capacity0: nat,
                       ghost take: nat)
    returns (ok: bool, out: seq<byte>, capacity: nat)
    requires Gathered(out0, disk.content, base, clusters, take) && |out0| == ci * take
    requires ci < |clusters| && wanted <= take
    ensures ok ==> Gathered(out, disk.content, base, clusters, take) && |out| == |out0| + wanted
    ensures disk.reliable && base + clusters[ci] + wanted <= |disk.content| ==> ok
  {
    hide Gathered;
    var clusterOffset := base + clusters[ci];
    var clusterBytes := wanted;
    out, capacity := out0, capacity0;
    while clusterBytes > 0
      invariant 0 <= clusterBytes <= wanted && |out| == |out0| + (wanted - clusterBytes)
      invariant clusterOffset == base + clusters[ci] + (wanted - clusterBytes)
      invariant Gathered(out, disk.content, base, clusters, take)
      decreases clusterBytes
    {
      var chunk := Min(clusterBytes, 65536);
      if |out| + chunk > capacity {
        capacity := if capacity * 2 < |out| + chunk then |out| + chunk else capacity * 2;
      }
      var status, data := disk.Pread(chunk, clusterOffset);
      if status != chunk {
        return false, out, capacity;
      }
      GatherMore(out, data, disk.content, base, clusters, take, ci, wanted - clusterBytes);
      out := out + data;
      clusterOffset := clusterOffset + chunk;
      clusterBytes := clusterBytes - chunk;
    }
    ok := true;
  }

  /** The cluster path of read_file_bytes. */
  method ReadClusters(disk: Disk, base: nat, n: Node) returns (res: Option<seq<byte>>)
    requires HasClusters(n)
    ensures res.Some? ==> IsPreview(res.value, disk.content, base, n)
    ensures disk.reliable && OnDisk(n, base, |disk.content|) ==> res.Some?
  {
    hide Gathered;
    var clusters, take := n.clusterList.value, n.clusterSize;
    var capacity := Min(n.size, MAX_PREVIEW);
    var result: seq<byte> := [];
    var remaining := n.size;
    var ci := 0;
    NothingGathered(disk.content, base, clusters, take);
    while ci < |clusters| && remaining > 0
      invariant 0 <= ci <= |clusters| && 0 <= remaining && |result| + remaining == n.size
      invariant remaining > 0 ==> |result| == ci * take
      invariant |result| <= ci * take
      invariant Gathered(result, disk.content, base, clusters, take)
      decreases |clusters| - ci
    {
      var clusterBytes := if take > remaining then remaining else take;
      var ok: bool;
      ok, result, capacity := AppendCluster(disk, base, clusters, ci, clusterBytes, result, capacity, take);
      if !ok {
        return None;
      }
      remaining := remaining - clusterBytes;
      assert (ci + 1) * take == ci * take + take;
      ci := ci + 1;
    }
    GatheredLength(|result|, ci, |clusters|, take, n.size, remaining);
    return Some(result);
  }

  lemma NothingGathered(content: seq<byte>, base: nat, clusters: seq<nat>, take: nat)
    requires take > 0
    ensures Gathered([], content, base, clusters, take)
  {
    assert |clusters| * take >= 0;
  }

  lemma GatheredLength(used: nat, ci: nat, count: nat, take: nat, size: nat, remaining: nat)
    requires used + remaining == size && ci <= count && used <= ci * take
    requires remaining > 0 ==> used == ci * take && ci == count
    ensures used == Min(size, count * take)
  {
    MulMono(ci, count, take);
  }

  /** Bytes of the file restore_orphan writes. */
  function RestoredSize(n: Node, sectorSize: nat): nat {
    if HasClusters(n) then Min(n.size, |n.clusterList.value| * Taken(n)) else n.numSectors * sectorSize
  }

  /** The cluster loop of restore_orphan: one pread of at most BUFFER_SIZE bytes per cluster. */
  method RestoreClusters(disk: Disk, base: nat, n: Node, f: File) returns (res: CopyResult)
    requires HasClusters(n) && f.data == []
    modifies f`data
    ensures res == CpOk ==> IsRestored(f.data, disk.content, base, n)
    ensures res == CpNoSpace ==> f.limit < RestoredSize(n, disk.sectorSize)
    ensures disk.reliable && OnDisk(n, base, |disk.content|) ==>
              res == if RestoredSize(n, disk.sectorSize) <= f.limit then CpOk else CpNoSpace
  {
    hide Gathered;
    var clusters := n.clusterList.value;
    ghost var take := Taken(n);
    var fileRemaining := n.size;
    var ci := 0;
    NothingGathered(disk.content, base, clusters, take);
    while ci < |clusters| && fileRemaining > 0
      invariant 0 <= ci <= |clusters| && 0 <= fileRemaining && |f.data| + fileRemaining == n.size
      invariant fileRemaining > 0 ==> |f.data| == ci * take
      invariant |f.data| <= ci * take && (ci == 0 || |f.data| <= f.limit)
      invariant Gathered(f.data, disk.content, base, clusters, take)
      decreases |clusters| - ci
    {
      var clusterOffset := base + clusters[ci];
      var clusterBytes := if n.clusterSize > fileRemaining then fileRemaining else n.clusterSize;
      var chunk := if clusterBytes > BUFFER_SIZE then BUFFER_SIZE else clusterBytes;
      assert (ci + 1) * take == ci * take + take;
      MulMono(ci + 1, |clusters|, take);
      var status, data := disk.Pread(chunk, clusterOffset);
      if status != chunk {
        return CpReadFailed;
      }
      GatherMore(f.data, data, disk.content, base, clusters, take, ci, 0);
      var ok := f.Fwrite(data);
      if !ok {
        return CpNoSpace;
      }
      fileRemaining := fileRemaining - chunk;
      ci := ci + 1;
    }
    GatheredLength(|f.data|, ci, |clusters|, take, n.size, fileRemaining);
    return CpOk;
  }

  lemma Continued(b: seq<byte>, i: nat, j: nat, k: nat)
    requires i <= j <= k <= |b|
    ensures b[i..k] == b[i..j] + b[j..k]
  {
  }

  /** The sector loop of restore_orphan. */
  method RestoreSectors(disk: Disk, start: nat, length: nat, f: File) returns (res: CopyResult)
    requires f.data == []
    modifies f`data
    ensures res == CpOk ==> |f.data| == length && IsRange(f.data, disk.content, start)
    ensures res == CpNoSpace ==> f.limit < length
    ensures disk.reliable && start + length <= |disk.content| ==> res == if length <= f.limit then CpOk else CpNoSpace
  {
    var offset, remaining := start, length;
    while remaining > 0
      invariant 0 <= remaining <= length && offset + remaining == start + length && |f.data| + remaining == length
      invariant remaining < length ==>
                  |f.data| <= f.limit && offset <= |disk.content| && f.data == disk.content[start..offset]
      decreases remaining
    {
      var chunk := if remaining > BUFFER_SIZE then BUFFER_SIZE else remaining;
      var status, data := disk.Pread(chunk, offset);
      if status != chunk {
        return CpReadFailed;
      }
      assert data == data[..chunk];
      Continued(disk.content, start, offset, offset + chunk);
      var ok := f.Fwrite(data);
      if !ok {
        return CpNoSpace;
      }
      offset := offset + chunk;
      remaining := remaining - chunk;
    }
    return CpOk;
  }

  /** Every byte that restore_orphan reads lies on the disk. */
  ghost predicate Readable(n: Node, base: nat, disk: Disk)
    reads disk
  {
    if HasClusters(n) then OnDisk(n, base, |disk.content|)
    else base + n.firstSector + n.numSectors * disk.sectorSize <= |disk.content|
  }

  /** restore_orphan, into the file it has just created. */
  method RestoreOrphan(disk: Disk, base: nat, n: Node, f: File) returns (res: CopyResult)
    requires f.data == []
    modifies f`data
    ensures res == CpOk ==> |f.data| == RestoredSize(n, disk.sectorSize)
    ensures res == CpOk && HasClusters(n) ==> IsRestored(f.data, disk.content, base, n)
    ensures res == CpOk && !HasClusters(n) ==> IsRange(f.data, disk.content, base + n.firstSector)
    ensures res == CpNoSpace ==> f.limit < RestoredSize(n, disk.sectorSize)
    ensures disk.reliable && Readable(n, base, disk) ==>
              res == if RestoredSize(n, disk.sectorSize) <= f.limit then CpOk else CpNoSpace
  {
    if HasClusters(n) {
      res := RestoreClusters(disk, base, n, f);
    } else {
      res := RestoreSectors(disk, base + n.firstSector, n.numSectors * disk.sectorSize, f);
    }
  }

  ghost predicate IsRange(out: seq<byte>, content: seq<byte>, start: nat) {
    |out| > 0 ==> start + |out| <= |content| && out == content[start..start + |out|]
  }

  /** The loop of read_file_bytes over a sector range. */
  method CopyRange(disk: Disk, start: nat, length: nat) returns (ok: bool, out: seq<byte>)
    ensures ok ==> start + length <= |disk.content| || length == 0
    ensures ok ==> |out| == length && (length > 0 ==> out == disk.content[start..start + length])
    ensures disk.reliable && start + length <= |disk.content| ==> ok
  {
    var offset, remaining := start, length;
    out := [];
    while remaining > 0
      invariant 0 <= remaining <= length && offset + remaining == start + length && |out| + remaining == length
      invariant remaining < length ==> offset <= |disk.content| && out == disk.content[start..offset]
      decreases remaining
    {
      var chunk := if remaining > 65536 then 65536 else remaining;
      var status, data := disk.Pread(chunk, offset);
      if status != chunk {
        return false, out;
      }
      assert data == data[..chunk];
      Continued(disk.content, start, offset, offset + chunk);
      out := out + data;
      offset := offset + chunk;
      remaining := remaining - chunk;
    }
    ok := true;
  }

  /** A file known by its sectors. */
  predicate HasSectors(n: Node) {
    n.orphan && n.firstSector != 0 && n.numSectors > 0
  }

  /** Bytes shown of it. */
  function SectorsShown(n: Node, sectorSize: nat): nat {
    if n.numSectors * sectorSize == 0 then 4096 else Min(n.numSectors * sectorSize, MAX_PREVIEW)
  }

  /** read_file_bytes; `captured` is what the filesystem driver delivers when it is asked for the file. */
  method ReadFileBytes(disk: Disk, base: nat, n: Node, captured: Option<seq<byte>>) returns (res: Option<seq<byte>>)
    ensures n.size == 0 ==> res == None
    ensures res.Some? && HasClusters(n) ==> IsPreview(res.value, disk.content, base, n)
    ensures res.Some? && !HasClusters(n) && HasSectors(n) ==>
              |res.value| == SectorsShown(n, disk.sectorSize) && IsRange(res.value, disk.content, base + n.firstSector)
    ensures !HasClusters(n) && !HasSectors(n) ==> res == if n.size == 0 || captured == Some([]) then None else captured
    ensures n.size > 0 && disk.reliable && HasClusters(n) && OnDisk(n, base, |disk.content|) ==> res.Some?
    ensures n.size > 0 && disk.reliable && !HasClusters(n) && HasSectors(n) ==>
              base + n.firstSector + SectorsShown(n, disk.sectorSize) <= |disk.content| ==> res.Some?
  {
    if n.size == 0 {
      return None;
    }
    if HasClusters(n) {
      res := ReadClusters(disk, base, n);
      return;
    }
    if HasSectors(n) {
      var remaining := n.numSectors * disk.sectorSize;
      if remaining > MAX_PREVIEW {
        remaining := MAX_PREVIEW;
      }
      if remaining == 0 {
        remaining := 4096;
      }
      var ok, out := CopyRange(disk, base + n.firstSector, remaining);
      return if ok then Some(out) else None;
    }
    res := if captured == Some([]) then None else captured;
  }

  // ----- preview and restored file -----

  /** The address of byte k of a file, after that of the data area. */
  function Place(clusters: seq<nat>, take: nat, k: nat): nat
    requires take > 0 && k / take < |clusters|
  {
    clusters[k / take] + k % take
  }

  lemma ClusterOf(k: nat, count: nat, take: nat)
    requires take > 0 && k < count * take
    ensures 0 <= k / take < count && 0 <= k % take <= k
  {
    var q := k / take;
    assert k == q * take + k % take;
    MulAtLeast(q - count, take);
    assert (q - count) * take == q * take - count * take;
    MulNonNeg(q, take);
  }

  /** The lengths agree exactly when no cluster is cut, or the file ends before that matters. */
  lemma PreviewLength(n: Node)
    requires HasClusters(n)
    ensures var count := |n.clusterList.value|;
            && Min(n.size, count * Taken(n)) <= Min(n.size, count * n.clusterSize)
            && (Min(n.size, count * Taken(n)) == Min(n.size, count * n.clusterSize)
                <==> n.clusterSize <= BUFFER_SIZE || n.size <= count * BUFFER_SIZE)
  {
    var count := |n.clusterList.value|;
    if n.clusterSize > BUFFER_SIZE {
      assert count * n.clusterSize == count * BUFFER_SIZE + count * (n.clusterSize - BUFFER_SIZE);
      MulMono(1, count, n.clusterSize - BUFFER_SIZE);
    }
  }

  /** The two take every byte from the same place. */
  ghost predicate SamePlaces(n: Node)
    requires HasClusters(n)
  {
    var clusters := n.clusterList.value;
    forall k :: 0 <= k < Min(n.size, |clusters| * Taken(n)) ==> SamePlace(clusters, n.clusterSize, Taken(n), k)
  }

  ghost predicate SamePlace(clusters: seq<nat>, a: nat, b: nat, k: nat)
    requires a > 0 && b > 0
  {
    k / a < |clusters| && k / b < |clusters| && Place(clusters, a, k) == Place(clusters, b, k)
  }

  /** On this disk preview and restored file are the same bytes. */
  ghost predicate AgreeOn(content: seq<byte>, base: nat, n: Node)
    requires HasClusters(n)
  {
    forall preview, file :: IsPreview(preview, content, base, n) && IsRestored(file, content, base, n) ==>
      preview == file
  }

  lemma SamePlacesAgree(content: seq<byte>, base: nat, n: Node)
    requires HasClusters(n) && SamePlaces(n)
    requires n.clusterSize <= BUFFER_SIZE || n.size <= |n.clusterList.value| * BUFFER_SIZE
    ensures AgreeOn(content, base, n)
  {
    PreviewLength(n);
    var clusters := n.clusterList.value;
    forall preview, file | IsPreview(preview, content, base, n) && IsRestored(file, content, base, n)
      ensures preview == file
    {
      forall k | 0 <= k < |file|
        ensures file[k] == preview[k]
      {
        assert SamePlace(clusters, n.clusterSize, Taken(n), k);
        assert GatheredAt(preview, k, content, base, clusters, n.clusterSize);
        assert GatheredAt(file, k, content, base, clusters, Taken(n));
      }
    }
  }

  function Highest(s: seq<nat>): (m: nat)
    ensures forall i :: 0 <= i < |s| ==> s[i] <= m
  {
    if |s| == 0 then 0
    else
      var rest := Highest(s[..|s| - 1]);
      if s[|s| - 1] > rest then s[|s| - 1] else rest
  }

  /** A disk that holds all clusters, with one byte marked. */
  function Marked(base: nat, n: Node, at: nat): seq<byte>
    requires HasClusters(n)
  {
    seq(base + Highest(n.clusterList.value) + n.clusterSize, i => if i == base + at then 1 else 0)
  }

  /** What a disk gives for a file read `take` bytes a cluster. */
  lemma Gathering(content: seq<byte>, base: nat, n: Node, take: nat, length: nat) returns (out: seq<byte>)
    requires HasClusters(n) && 0 < take <= n.clusterSize && length <= |n.clusterList.value| * take
    requires |content| >= base + Highest(n.clusterList.value) + n.clusterSize
    ensures |out| == length && Gathered(out, content, base, n.clusterList.value, take)
  {
    var clusters := n.clusterList.value;
    out := [];
    NothingGathered(content, base, clusters, take);
    while |out| < length
      invariant |out| <= length && Gathered(out, content, base, clusters, take)
      decreases length - |out|
    {
      var k := |out|;
      ClusterOf(k, |clusters|, take);
      var at := base + clusters[k / take] + k % take;
      GatherMore(out, content[at..at + 1], content, base, clusters, take, k / take, k % take);
      out := out + content[at..at + 1];
    }
  }

  /** With the lengths different, or a byte taken from different places, a marked byte shows the difference. */
  lemma MarkedDiffers(base: nat, n: Node, k: nat) returns (content: seq<byte>, preview: seq<byte>, file: seq<byte>)
    requires HasClusters(n)
    requires k < Min(n.size, |n.clusterList.value| * Taken(n)) ==>
               !SamePlace(n.clusterList.value, n.clusterSize, Taken(n), k)
    requires k >= Min(n.size, |n.clusterList.value| * Taken(n)) ==>
               n.clusterSize > BUFFER_SIZE && n.size > |n.clusterList.value| * BUFFER_SIZE
    ensures IsPreview(preview, content, base, n) && IsRestored(file, content, base, n) && preview != file
    ensures k < |file| ==> k < |preview| && preview[k] != file[k]
  {
    hide Gathered, Place;
    var clusters := n.clusterList.value;
    var take := Taken(n);
    PreviewLength(n);
    var marked := k < Min(n.size, |clusters| * take);
    if marked {
      ClusterOf(k, |clusters|, take);
      ClusterOf(k, |clusters|, n.clusterSize);
    }
    content := Marked(base, n, if marked then Place(clusters, take, k) else 0);
    preview := Gathering(content, base, n, n.clusterSize, Min(n.size, |clusters| * n.clusterSize));
    file := Gathering(content, base, n, take, Min(n.size, |clusters| * take));
    if marked {
      GatheredPlace(preview, k, content, base, clusters, n.clusterSize);
      GatheredPlace(file, k, content, base, clusters, take);
    }
  }

  lemma GatheredPlace(out: seq<byte>, k: nat, content: seq<byte>, base: nat, clusters: seq<nat>, take: nat)
    requires Gathered(out, content, base, clusters, take) && k < |out|
    ensures k / take < |clusters| && base + Place(clusters, take, k) < |content|
    ensures out[k] == content[base + Place(clusters, take, k)]
  {
    assert GatheredAt(out, k, content, base, clusters, take);
  }

  /** Preview and restored file agree on every disk exactly when they have the same length and the same places. */
  lemma AgreeIffSamePlaces(base: nat, n: Node)
    requires HasClusters(n)
    ensures (forall content: seq<byte> :: AgreeOn(content, base, n)) <==>
              && (n.clusterSize <= BUFFER_SIZE || n.size <= |n.clusterList.value| * BUFFER_SIZE)
              && SamePlaces(n)
  {
    var clusters := n.clusterList.value;
    var same := n.clusterSize <= BUFFER_SIZE || n.size <= |clusters| * BUFFER_SIZE;
    if same && SamePlaces(n) {
      forall content: seq<byte>
        ensures AgreeOn(content, base, n)
      {
        SamePlacesAgree(content, base, n);
      }
    } else {
      var length := Min(n.size, |clusters| * Taken(n));
      var k := length;
      if same {
        k :| 0 <= k < length && !SamePlace(clusters, n.clusterSize, Taken(n), k);
      }
      var content, preview, file := MarkedDiffers(base, n, k);
      assert !AgreeOn(content, base, n);
    }
  }

  /** Clusters of one size from one origin, as the filesystems lay them out. */
  ghost predicate OnGrid(n: Node)
    requires HasClusters(n)
  {
    var c := n.clusterList.value;
    forall i, j :: 0 <= i < |c| && 0 <= j < |c| ==> (c[i] - c[j]) % n.clusterSize == 0
  }

  /** Nothing differs below the first cut; behind it everything on a grid does. */
  lemma PlacesOnGrid(n: Node)
    requires HasClusters(n) && OnGrid(n)
    ensures n.clusterSize <= BUFFER_SIZE || n.size <= BUFFER_SIZE ==> SamePlaces(n)
    ensures n.clusterSize > BUFFER_SIZE && n.size > BUFFER_SIZE && |n.clusterList.value| > 1 ==>
              && BUFFER_SIZE < |n.clusterList.value| * BUFFER_SIZE
              && !SamePlace(n.clusterList.value, n.clusterSize, BUFFER_SIZE, BUFFER_SIZE)
  {
    var clusters, cs := n.clusterList.value, n.clusterSize;
    if cs <= BUFFER_SIZE || n.size <= BUFFER_SIZE {
      forall k | 0 <= k < Min(n.size, |clusters| * Taken(n))
        ensures SamePlace(clusters, cs, Taken(n), k)
      {
        ClusterOf(k, |clusters|, Taken(n));
        if cs > BUFFER_SIZE {
          DivModUnique(k, 0, cs, k);
          DivModUnique(k, 0, BUFFER_SIZE, k);
        }
      }
    } else if |clusters| > 1 {
      DivModUnique(BUFFER_SIZE, 0, cs, BUFFER_SIZE);
      DivModUnique(BUFFER_SIZE, 1, BUFFER_SIZE, 0);
      assert (clusters[1] - clusters[0]) % cs == 0;
    }
  }

  /** On a grid, preview and restored file agree on every disk exactly when clusters, or the whole file, fit the
      buffer. */
  lemma PreviewIsRestoredFile(base: nat, n: Node)
    requires HasClusters(n) && OnGrid(n)
    ensures (forall content: seq<byte> :: AgreeOn(content, base, n)) <==>
              n.clusterSize <= BUFFER_SIZE || n.size <= BUFFER_SIZE
  {
    hide AgreeOn, SamePlaces, OnGrid, SamePlace;
    var count := |n.clusterList.value|;
    AgreeIffSamePlaces(base, n);
    PlacesOnGrid(n);
    MulMono(1, count, BUFFER_SIZE);
    if n.clusterSize > BUFFER_SIZE && n.size > BUFFER_SIZE && count > 1 {
      assert !SamePlaces(n) by {
        NotAllSame(n, BUFFER_SIZE);
      }
    }
  }

  lemma NotAllSame(n: Node, k: nat)
    requires HasClusters(n) && k < Min(n.size, |n.clusterList.value| * Taken(n))
    requires !SamePlace(n.clusterList.value, n.clusterSize, Taken(n), k)
    ensures !SamePlaces(n)
  {
  }

  /** Past the buffer the difference can be silent: whenever the file fits the parts that are copied, some disk gives
      two
      files of the same length that differ in the byte after the first part. */
  lemma SilentlyWrong(base: nat, n: Node) returns (content: seq<byte>, preview: seq<byte>, file: seq<byte>)
    requires HasClusters(n) && OnGrid(n)
    requires n.clusterSize > BUFFER_SIZE && BUFFER_SIZE < n.size <= |n.clusterList.value| * BUFFER_SIZE
    ensures IsPreview(preview, content, base, n) && IsRestored(file, content, base, n)
    ensures |preview| == |file| == n.size && preview[BUFFER_SIZE] != file[BUFFER_SIZE]
  {
    hide IsPreview, IsRestored, OnGrid, SamePlace;
    PreviewLength(n);
    PlacesOnGrid(n);
    content, preview, file := MarkedDiffers(base, n, BUFFER_SIZE);
    assert |preview| == Min(n.size, |n.clusterList.value| * n.clusterSize) by {
      PreviewSize(preview, content, base, n);
    }
    assert |file| == Min(n.size, |n.clusterList.value| * Taken(n)) by {
      RestoredFileSize(file, content, base, n);
    }
  }

  lemma PreviewSize(out: seq<byte>, content: seq<byte>, base: nat, n: Node)
    requires HasClusters(n) && IsPreview(out, content, base, n)
    ensures |out| == Min(n.size, |n.clusterList.value| * n.clusterSize)
  {
  }

  lemma RestoredFileSize(out: seq<byte>, content: seq<byte>, base: nat, n: Node)
    requires HasClusters(n) && IsRestored(out, content, base, n)
    ensures |out| == Min(n.size, |n.clusterList.value| * Taken(n))
  {
  }

  /** Two clusters of 128 KiB, one after the other, and a file that fills the first. */
  lemma TwoLargeClusters() returns (n: Node, content: seq<byte>, preview: seq<byte>, file: seq<byte>)
    ensures n == Node(131072, 0, 0, false, Some([0, 131072]), 131072)
    ensures IsPreview(preview, content, 0, n) && IsRestored(file, content, 0, n)
    ensures |preview| == |file| == 131072 && preview[65536] != file[65536]
  {
    n := Node(131072, 0, 0, false, Some([0, 131072]), 131072);
    content, preview, file := SilentlyWrong(0, n);
  }
}
