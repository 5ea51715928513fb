/** The tree part of a session file: src/core/session.c:107-306.

    Every node below the root is one record: its printed path, flags, sizes and clusters.  Records are
    written in pre-order; the reader rebuilds the tree by adding each path in turn. */
module SessionFormat {
  import opened Bits
  import opened Disks
  import opened LittleEndian
  import opened PathTree
  import opened Clipping

  const MAX_PATH: nat := 4096
  const END_MARK: nat := 0xFFFF

  /** The fixed fields between the path length and the path: flags, size, first sector, sectors, mtime,
      sector size, cluster count and cluster size. */
  const WIDTHS: seq<nat> := [1, 8, 8, 8, 8, 4, 4, 4]
  const FIXED: nat := 45

  lemma FixedWidth()
    ensures Total(WIDTHS) == FIXED
  {
    TotalOfFour(1, 8, 8, 8);
    TotalOfFour(8, 4, 4, 4);
    TotalConcat([1, 8, 8, 8], [8, 4, 4, 4]);
    assert WIDTHS == [1, 8, 8, 8] + [8, 4, 4, 4];
  }

  // ----- the flag byte -----

  function FlagByte(i: Info): (f: nat)
    ensures f < 128
  {
    OfBits(i.isDir, i.marked, i.deleted, i.orphan, i.expanded, i.backupRestored, i.backupModified, false)
  }

  lemma FlagsOfByte(i: Info)
    ensures var f := FlagByte(i);
            && Flag(f, 1) == i.isDir && Flag(f, 2) == i.marked && Flag(f, 4) == i.deleted && Flag(f, 8) == i.orphan
            && Flag(f, 16) == i.expanded && Flag(f, 32) == i.backupRestored && Flag(f, 64) == i.backupModified
  {
    FlagsOfBits(i.isDir, i.marked, i.deleted, i.orphan, i.expanded, i.backupRestored, i.backupModified, false);
  }

  // ----- writing -----

  /** The last n names of a path. */
  function Deepest(path: seq<Name>, n: nat): seq<Name> {
    if |path| <= n then path else path[|path| - n..]
  }

  /** tree_get_path into a buffer of MAX_PATH bytes. */
  function PrintedPath(path: seq<Name>): (s: seq<byte>)
    ensures |s| < MAX_PATH
  {
    Clipped(Joined(Deepest(path, MAX_CHAIN)), MAX_PATH)
  }

  function ClusterBytes(clusters: seq<nat>): (b: seq<byte>)
    ensures |b| == 8 * |clusters|
  {
    if |clusters| == 0 then [] else Le(8, clusters[0]) + ClusterBytes(clusters[1..])
  }

  function FixedFields(i: Info): seq<Field>
    requires FitsSigned(8, i.mtime)
  {
    [Field(1, FlagByte(i)), Field(8, i.size), Field(8, i.firstSector), Field(8, i.numSectors),
     Field(8, ToUnsigned(8, i.mtime)),
     Field(4, i.sectorSize), Field(4, |i.clusterList|), Field(4, i.clusterSize)]
  }

  /** A modification time is a 64-bit signed number. */
  ghost predicate TimesFit(t: Tree)
    decreases t
  {
    FitsSigned(8, t.info.mtime) && forall k :: 0 <= k < |t.kids| ==> TimesFit(t.kids[k])
  }

  /** One record: length, fixed fields, path, clusters. */
  function RecordBytes(path: seq<byte>, i: Info): seq<byte>
    requires FitsSigned(8, i.mtime)
  {
    Le(2, |path|) + Pack(FixedFields(i)) + path + ClusterBytes(i.clusterList)
  }

  /** session_write_node_rec for the node n that `path` leads to. */
  ghost function TreeBytes(n: Tree, path: seq<Name>): seq<byte>
    requires TimesFit(n)
    decreases n
  {
    if |PrintedPath(path)| == 0 then []
    else RecordBytes(PrintedPath(path), n.info) + if n.info.isDir then ForestBytes(n.kids, path) else []
  }

  ghost function ForestBytes(kids: seq<Tree>, path: seq<Name>): seq<byte>
    requires forall k :: 0 <= k < |kids| ==> TimesFit(kids[k])
    decreases kids
  {
    if |kids| == 0 then [] else TreeBytes(kids[0], path + [kids[0].info.name]) + ForestBytes(kids[1..], path)
  }

  // ----- reading -----

  /** A C string ends at its first NUL. */
  function CStr(b: seq<byte>): (s: seq<byte>)
    ensures 0 !in s && (0 !in b ==> s == b)
  {
    if |b| == 0 || b[0] == 0 then [] else [b[0]] + CStr(b[1..])
  }

  function Zeros(n: nat): (z: seq<nat>)
    ensures |z| == n
  {
    seq(n, _ => 0)
  }

  /** n cluster numbers; those missing at the end of the file are left zero. */
  function Clusters(data: seq<byte>, n: nat): (c: seq<nat>)
    ensures |c| == n
  {
    if n == 0 then [] else if |data| < 8 then Zeros(n) else [FromLe(data[..8])] + Clusters(data[8..], n - 1)
  }

  function AfterClusters(data: seq<byte>, n: nat): (rest: seq<byte>)
    ensures |rest| <= |data|
  {
    if 8 * n <= |data| then data[8 * n..] else []
  }

  function EntryAttrs(v: seq<nat>): Attrs
    requires |v| == 8
  {
    Attrs(Flag(v[0], 1), v[1], v[2], v[3], ToSigned(8, v[4]), v[5], Flag(v[0], 4))
  }

  function HasClusters(v: seq<nat>): bool
    requires |v| == 8
  {
    v[6] > 0 && !Flag(v[0], 1)
  }

  /** What the reader stores in the node it found. */
  function EntryInfo(i: Info, v: seq<nat>, data: seq<byte>): Info
    requires |v| == 8
  {
    var flagged := i.(marked := Flag(v[0], 2), orphan := Flag(v[0], 8), expanded := Flag(v[0], 16),
                      backupRestored := Flag(v[0], 32), backupModified := Flag(v[0], 64));
    if HasClusters(v) then flagged.(clusterList := Clusters(data, v[6]), clusterSize := v[7]) else flagged
  }

  /** The tree after one entry. */
  function Entered(t: Tree, path: seq<byte>, v: seq<nat>, data: seq<byte>): Tree
    requires |v| == 8
  {
    var names := Tokens(CStr(path));
    AddPathFound(t, names, EntryAttrs(v));
    var t1 := AddPath(t, names, EntryAttrs(v));
    var node := Lookup(t1, names)[0];
    Put(t1, names, node.(info := EntryInfo(node.info, v, data)))
  }

  /** A whole entry is there to be read. */
  predicate EntryPresent(data: seq<byte>) {
    |data| >= 2 &&
    var len := FromLe(data[..2]);
    len < MAX_PATH && 2 + FIXED + len <= |data|
  }

  /** session_read_tree */
  function ParseEntries(data: seq<byte>, t: Tree): Tree
    decreases |data|
  {
    if !EntryPresent(data) then t
    else
      FixedWidth();
      var len := FromLe(data[..2]);
      var v := Unpack(WIDTHS, data[2..]);
      var rest := data[2 + FIXED + len..];
      ParseEntries(if HasClusters(v) then AfterClusters(rest, v[6]) else rest,
                   Entered(t, data[2 + FIXED..2 + FIXED + len], v, rest))
  }

  // ----- what survives a round trip -----

  /** The fields of i fit where they are stored. */
  ghost predicate SavableInfo(i: Info) {
    && NameOk(i.name) && FitsSigned(8, i.mtime)
    && i.size < Limit(8) && i.firstSector < Limit(8) && i.numSectors < Limit(8)
    && i.sectorSize < Limit(4) && |i.clusterList| < Limit(4) && i.clusterSize < Limit(4)
    && (forall k :: 0 <= k < |i.clusterList| ==> i.clusterList[k] < Limit(8))
  }

  /** n, found at `path`, and everything that is written below it; only files have clusters. */
  ghost predicate Savable(n: Tree, path: seq<Name>)
    decreases n
  {
    && SavableInfo(n.info) && |path| <= MAX_CHAIN && |Joined(path)| < MAX_PATH
    && (if n.info.isDir then n.info.clusterList == [] && SavableKids(n.kids, path)
        else forall k :: 0 <= k < |n.kids| ==> TimesFit(n.kids[k]))
  }

  ghost predicate SavableKids(kids: seq<Tree>, path: seq<Name>)
    decreases kids
  {
    && (forall i, j :: 0 <= i < j < |kids| ==> kids[i].info.name != kids[j].info.name)
    && forall k :: 0 <= k < |kids| ==> Savable(kids[k], path + [kids[k].info.name])
  }

  /** What is read back of the fields of a node. */
  function ReadInfo(i: Info): Info {
    if i.isDir || i.clusterList == [] then i.(clusterList := [], clusterSize := 0) else i
  }

  /** What is read back of a tree: clusters and their size only for files that have some, and nothing below files. */
  function ReadTree(n: Tree): (r: Tree)
    ensures r.info.name == n.info.name
    decreases n
  {
    Tree(ReadInfo(n.info), if n.info.isDir then ReadForest(n.kids) else [])
  }

  function ReadForest(kids: seq<Tree>): (r: seq<Tree>)
    ensures |r| == |kids| && forall k :: 0 <= k < |r| ==> r[k].info.name == kids[k].info.name
    decreases kids
  {
    if |kids| == 0 then [] else [ReadTree(kids[0])] + ReadForest(kids[1..])
  }

  /** Nodes without clusters have no cluster size, directories have no clusters, and files nothing below them. */
  predicate Plain(n: Tree)
    decreases n
  {
    && (n.info.isDir || n.info.clusterList == [] ==> n.info.clusterList == [] && n.info.clusterSize == 0)
    && if n.info.isDir then PlainForest(n.kids) else n.kids == []
  }

  predicate PlainForest(kids: seq<Tree>)
    decreases kids
  {
    |kids| > 0 ==> Plain(kids[0]) && PlainForest(kids[1..])
  }

  /** Exactly these are read back as they were. */
  lemma {:induction false} ReadTreeIsPlain(n: Tree)
    ensures ReadTree(n) == n <==> Plain(n)
    decreases n
  {
    ReadForestIsPlain(n.kids);
  }

  lemma {:induction false} ReadForestIsPlain(kids: seq<Tree>)
    ensures ReadForest(kids) == kids <==> PlainForest(kids)
    decreases kids
  {
    hide ReadTree, Plain, ReadForest;
    ReadForestStep(kids);
    if |kids| > 0 {
      ReadTreeIsPlain(kids[0]);
      ReadForestIsPlain(kids[1..]);
      SameHeadAndTail(ReadForest(kids), ReadTree(kids[0]), ReadForest(kids[1..]), kids);
    }
  }

  lemma ReadForestStep(kids: seq<Tree>)
    ensures ReadForest(kids) == if |kids| == 0 then [] else [ReadTree(kids[0])] + ReadForest(kids[1..])
  {
    hide ReadTree;
  }

  lemma SameHeadAndTail<T>(s: seq<T>, x: T, rest: seq<T>, t: seq<T>)
    requires s == [x] + rest && |t| > 0
    ensures s == t <==> x == t[0] && rest == t[1..]
  {
    assert t == [t[0]] + t[1..];
    assert s[0] == x && s[1..] == rest;
  }

  lemma {:induction false} SavableTimesFit(n: Tree, path: seq<Name>)
    requires Savable(n, path)
    ensures TimesFit(n)
    decreases n
  {
    if n.info.isDir {
      forall k | 0 <= k < |n.kids|
        ensures TimesFit(n.kids[k])
      {
        SavableTimesFit(n.kids[k], path + [n.kids[k].info.name]);
      }
    }
  }

  lemma {:induction false} ClustersOfBytes(clusters: seq<nat>, rest: seq<byte>)
    requires forall k :: 0 <= k < |clusters| ==> clusters[k] < Limit(8)
    ensures Clusters(ClusterBytes(clusters) + rest, |clusters|) == clusters
    ensures AfterClusters(ClusterBytes(clusters) + rest, |clusters|) == rest
  {
    hide Le, FromLe, Limit;
    if |clusters| > 0 {
      LeRoundTrip(8, clusters[0]);
      Split(Le(8, clusters[0]), ClusterBytes(clusters[1..]), rest);
      ClustersOfBytes(clusters[1..], rest);
    }
  }

  /** The pieces of a record, found where they were put. */
  lemma RecordPieces(path: seq<byte>, i: Info, rest: seq<byte>)
    requires SavableInfo(i) && |path| < MAX_PATH
    ensures var data := RecordBytes(path, i) + rest;
            && EntryPresent(data) && FromLe(data[..2]) == |path|
            && data[2 + FIXED..2 + FIXED + |path|] == path
            && data[2 + FIXED + |path|..] == ClusterBytes(i.clusterList) + rest
    ensures var data := RecordBytes(path, i) + rest;
            Total(WIDTHS) == FIXED && Unpack(WIDTHS, data[2..]) == [FlagByte(i), i.size, i.firstSector, i.numSectors,
              ToUnsigned(8, i.mtime), i.sectorSize, |i.clusterList|, i.clusterSize]
  {
    hide Le, FromLe, Limit, Unpack, ClusterBytes, Pack, Total, FlagByte;
    var vs := [FlagByte(i), i.size, i.firstSector, i.numSectors, ToUnsigned(8, i.mtime), i.sectorSize, |i.clusterList|,
               i.clusterSize];
    var head, fixed, clusters := Le(2, |path|), Pack(FixedFields(i)), ClusterBytes(i.clusterList);
    FixedWidth();
    FieldsHold(i);
    UnpackOfPack(FixedFields(i), WIDTHS, vs, path + clusters + rest);
    Limits();
    LeRoundTrip(2, |path|);
    FourPieces(head, fixed, path, clusters, rest);
  }

  lemma FieldsHold(i: Info)
    requires SavableInfo(i)
    ensures Holds(FixedFields(i), WIDTHS,
                  [FlagByte(i), i.size, i.firstSector, i.numSectors, ToUnsigned(8, i.mtime), i.sectorSize,
                                          |i.clusterList|, i.clusterSize])
  {
    assert Limit(1) == 256;
  }

  lemma FourPieces(a: seq<byte>, b: seq<byte>, c: seq<byte>, d: seq<byte>, rest: seq<byte>)
    ensures var data := a + b + c + d + rest;
            && data[..|a|] == a && data[|a|..] == b + (c + d + rest)
            && data[|a| + |b|..|a| + |b| + |c|] == c && data[|a| + |b| + |c|..] == d + rest
  {
  }

  /** A new last child x of the node at p: it is found there, and can be replaced there. */
  lemma LastChild(t: Tree, p: seq<Name>, x: Tree, y: Tree)
    requires |Lookup(t, p)| == 1 && FindKid(Lookup(t, p)[0].kids, x.info.name) == |Lookup(t, p)[0].kids|
    requires y.info.name == x.info.name
    ensures var d := Lookup(t, p)[0];
            var t1 := Put(t, p, d.(kids := d.kids + [x]));
            && Lookup(t1, p) == [d.(kids := d.kids + [x])]
            && Lookup(t1, p + [x.info.name]) == [x]
            && Put(t1, p + [x.info.name], y) == Put(t, p, d.(kids := d.kids + [y]))
  {
    hide Lookup, Put, FindKid;
    var d := Lookup(t, p)[0];
    var e := d.(kids := d.kids + [x]);
    var t1 := Put(t, p, e);
    FindKidAppend(d.kids, x, x.info.name);
    PutLaws(t, p, e, d.(kids := d.kids + [y]));
    PutChild(t1, p, x.info.name, y);
    assert e.kids[|d.kids| := y] == d.kids + [y];
  }

  /** One record adds its node, without children, at the end of its directory; the clusters of a directory are left to
      be
      read as records. */
  lemma RecordRoundTrip(t: Tree, p: seq<Name>, i: Info, rest: seq<byte>)
    requires |Lookup(t, p)| == 1 && FindKid(Lookup(t, p)[0].kids, i.name) == |Lookup(t, p)[0].kids|
    requires SavableInfo(i) && (forall k :: 0 <= k < |p| ==> NameOk(p[k]))
    requires |p| < MAX_CHAIN && |Joined(p + [i.name])| < MAX_PATH
    ensures var d := Lookup(t, p)[0];
            ParseEntries(RecordBytes(PrintedPath(p + [i.name]), i) + rest, t)
              == ParseEntries((if i.isDir then ClusterBytes(i.clusterList) else []) + rest,
                              Put(t, p, d.(kids := d.kids + [Tree(ReadInfo(i), [])])))
  {
    hide Lookup, Put, FindKid, AddPath, Tokens, Joined, RecordBytes, Unpack, Clusters, AfterClusters, ClusterBytes,
         FromLe, ReadInfo,
         Flag, FlagByte, Limit, Total, ParseEntries;
    var names := p + [i.name];
    var path := Joined(names);
    var data := RecordBytes(path, i) + rest;
    RecordPieces(path, i, rest);
    ClustersOfBytes(i.clusterList, rest);
    JoinedHasNoNul(names);
    TokensOfJoined(names);
    var tail := ClusterBytes(i.clusterList) + rest;
    var v := Unpack(WIDTHS, data[2..]);
    EnteredNode(t, p, i, v, path, tail);
    ParseStep(data, t);
    NoClusters(i, rest);
    assert [] + rest == rest;
  }

  /** One turn of the reading loop. */
  lemma ParseStep(data: seq<byte>, t: Tree)
    requires EntryPresent(data)
    ensures Total(WIDTHS) == FIXED
    ensures var len := FromLe(data[..2]);
            var v := Unpack(WIDTHS, data[2..]);
            var rest := data[2 + FIXED + len..];
            ParseEntries(data, t) == ParseEntries(if HasClusters(v) then AfterClusters(rest, v[6]) else rest,
                                                  Entered(t, data[2 + FIXED..2 + FIXED + len], v, rest))
  {
    hide Unpack, AfterClusters, Entered, HasClusters, FromLe, Total;
    FixedWidth();
  }

  lemma NoClusters(i: Info, rest: seq<byte>)
    ensures i.clusterList == [] ==> ClusterBytes(i.clusterList) + rest == rest
  {
  }

  lemma {:induction false} JoinedHasNoNul(path: seq<Name>)
    requires forall k :: 0 <= k < |path| ==> NameOk(path[k])
    ensures 0 !in Joined(path)
  {
    if |path| > 0 {
      assert NameOk(path[0]);
      JoinedHasNoNul(path[1..]);
    }
  }

  /** The fields of an entry are those of the node it was written for. */
  lemma EntryOfInfo(i: Info, v: seq<nat>, data: seq<byte>)
    requires SavableInfo(i) && Clusters(data, |i.clusterList|) == i.clusterList
    requires v == [FlagByte(i), i.size, i.firstSector, i.numSectors, ToUnsigned(8, i.mtime), i.sectorSize,
                   |i.clusterList|, i.clusterSize]
    ensures EntryInfo(NewInfo(i.name, EntryAttrs(v)), v, data) == ReadInfo(i)
    ensures HasClusters(v) <==> i.clusterList != [] && !i.isDir
  {
    hide Clusters, Flag, FlagByte, Limit;
    FlagsOfByte(i);
    SignedRoundTrip(8, i.mtime);
  }

  lemma EnteredNode(t: Tree, p: seq<Name>, i: Info, v: seq<nat>, path: seq<byte>, data: seq<byte>)
    requires |Lookup(t, p)| == 1 && FindKid(Lookup(t, p)[0].kids, i.name) == |Lookup(t, p)[0].kids|
    requires SavableInfo(i) && 0 !in path && Tokens(path) == p + [i.name]
    requires v == [FlagByte(i), i.size, i.firstSector, i.numSectors, ToUnsigned(8, i.mtime), i.sectorSize,
                   |i.clusterList|, i.clusterSize]
    requires Clusters(data, |i.clusterList|) == i.clusterList
    ensures var d := Lookup(t, p)[0];
            Entered(t, path, v, data) == Put(t, p, d.(kids := d.kids + [Tree(ReadInfo(i), [])]))
    ensures HasClusters(v) <==> i.clusterList != [] && !i.isDir
  {
    hide Lookup, Put, FindKid, AddPath, Tokens, Clusters, Flag, FlagByte, Limit, CStr, SavableInfo,
         EntryAttrs, EntryInfo, HasClusters;
    assert ReadInfo(i).name == i.name;
    var a := EntryAttrs(v);
    EntryOfInfo(i, v, data);
    AddPathNew(t, p, i.name, a);
    LastChild(t, p, Tree(NewInfo(i.name, a), []), Tree(ReadInfo(i), []));
  }

  /** Reading the records of n adds what is read back of n, with everything below it, at the end of its directory. */
  lemma {:induction false} TreeRoundTrip(t: Tree, p: seq<Name>, n: Tree, rest: seq<byte>)
    requires |Lookup(t, p)| == 1 && FindKid(Lookup(t, p)[0].kids, n.info.name) == |Lookup(t, p)[0].kids|
    requires Savable(n, p + [n.info.name]) && forall k :: 0 <= k < |p| ==> NameOk(p[k])
    ensures TimesFit(n)
    ensures var d := Lookup(t, p)[0];
            ParseEntries(TreeBytes(n, p + [n.info.name]) + rest, t)
              == ParseEntries(rest, Put(t, p, d.(kids := d.kids + [ReadTree(n)])))
    decreases n
  {
    hide Lookup, Put, FindKid, Joined, RecordBytes, ParseEntries, ForestBytes, TimesFit, SavableInfo, SavableKids,
         NameOk, ReadInfo, ReadForest, ClusterBytes;
    var i, q, d := n.info, p + [n.info.name], Lookup(t, p)[0];
    SavableTimesFit(n, q);
    SavableNameOk(i);
    TimesFitParts(n);
    var leaf := Tree(ReadInfo(i), []);
    assert ReadInfo(i).name == i.name && ReadInfo(i).isDir == i.isDir by { ReadInfoKeeps(i); }
    var below := if i.isDir then ForestBytes(n.kids, q) else [];
    RecordRoundTrip(t, p, i, below + rest);
    PathPrinted(p, i.name);
    assert TreeBytes(n, q) + rest == RecordBytes(PrintedPath(q), i) + (below + rest);
    if i.isDir {
      NoClusters(i, below + rest);
      LastChild(t, p, leaf, ReadTree(n));
      ForestRoundTrip(Put(t, p, d.(kids := d.kids + [leaf])), q, n.kids, rest);
      assert leaf.(kids := leaf.kids + ReadForest(n.kids)) == ReadTree(n);
    } else {
      assert ReadTree(n) == leaf;
      assert [] + (below + rest) == rest;
    }
  }

  lemma ReadInfoKeeps(i: Info)
    ensures ReadInfo(i).name == i.name && ReadInfo(i).isDir == i.isDir
  {
  }

  lemma PathPrinted(p: seq<Name>, name: Name)
    ensures |PrintedPath(p + [name])| > 0
  {
    var q := Deepest(p + [name], MAX_CHAIN);
    assert |q| > 0;
    assert Joined(q) == [SLASH] + q[0] + Joined(q[1..]);
  }

  lemma SavableNameOk(i: Info)
    requires SavableInfo(i)
    ensures NameOk(i.name)
  {
  }

  lemma TimesFitParts(n: Tree)
    requires TimesFit(n)
    ensures FitsSigned(8, n.info.mtime) && forall k :: 0 <= k < |n.kids| ==> TimesFit(n.kids[k])
  {
  }

  lemma {:induction false} ForestRoundTrip(t: Tree, p: seq<Name>, kids: seq<Tree>, rest: seq<byte>)
    requires |Lookup(t, p)| == 1 && SavableKids(kids, p) && forall k :: 0 <= k < |p| ==> NameOk(p[k])
    requires forall i, k :: 0 <= i < |kids| && 0 <= k < |Lookup(t, p)[0].kids| ==>
               Lookup(t, p)[0].kids[k].info.name != kids[i].info.name
    ensures forall k :: 0 <= k < |kids| ==> TimesFit(kids[k])
    ensures var d := Lookup(t, p)[0];
            ParseEntries(ForestBytes(kids, p) + rest, t)
              == ParseEntries(rest, Put(t, p, d.(kids := d.kids + ReadForest(kids))))
    decreases kids
  {
    hide Put, Lookup, ParseEntries, Savable, SavableKids, TreeBytes, TimesFit, NameOk, ReadTree, ReadForest;
    ReadForestStep(kids);
    var d := Lookup(t, p)[0];
    if |kids| == 0 {
      PutSame(t, p);
      assert d.kids + ReadForest(kids) == d.kids && ForestBytes(kids, p) + rest == rest;
    } else {
      var e := d.(kids := d.kids + [ReadTree(kids[0])]);
      var q := p + [kids[0].info.name];
      assert Savable(kids[0], q) by {
        SavableFirst(kids, p);
      }
      SavableRest(kids, p);
      SavableKidsTimesFit(kids, p);
      TreeRoundTrip(t, p, kids[0], ForestBytes(kids[1..], p) + rest);
      PutLaws(t, p, e, d.(kids := d.kids + ReadForest(kids)));
      var t1 := Put(t, p, e);
      StillApart(d.kids, kids, ReadTree(kids[0]), p);
      ForestRoundTrip(t1, p, kids[1..], rest);
      assert e.kids + ReadForest(kids[1..]) == d.kids + ReadForest(kids);
      assert ForestBytes(kids, p) + rest == TreeBytes(kids[0], q) + (ForestBytes(kids[1..], p) + rest);
    }
  }

  lemma StillApart(ds: seq<Tree>, kids: seq<Tree>, x: Tree, p: seq<Name>)
    requires |kids| > 0 && x.info.name == kids[0].info.name && SavableKids(kids, p)
    requires forall i, k :: 0 <= i < |kids| && 0 <= k < |ds| ==> ds[k].info.name != kids[i].info.name
    ensures forall i, k :: 0 <= i < |kids[1..]| && 0 <= k < |ds + [x]| ==>
              (ds + [x])[k].info.name != kids[1..][i].info.name
  {
  }

  lemma SavableKidsTimesFit(kids: seq<Tree>, p: seq<Name>)
    requires SavableKids(kids, p)
    ensures forall k :: 0 <= k < |kids| ==> TimesFit(kids[k])
  {
    forall k | 0 <= k < |kids|
      ensures TimesFit(kids[k])
    {
      SavableTimesFit(kids[k], p + [kids[k].info.name]);
    }
  }

  lemma SavableFirst(kids: seq<Tree>, p: seq<Name>)
    requires SavableKids(kids, p) && |kids| > 0
    ensures Savable(kids[0], p + [kids[0].info.name])
  {
    hide Savable;
  }

  lemma SavableRest(kids: seq<Tree>, p: seq<Name>)
    requires SavableKids(kids, p) && |kids| > 0
    ensures SavableKids(kids[1..], p)
  {
    hide Savable;
    forall k | 0 <= k < |kids[1..]|
      ensures Savable(kids[1..][k], p + [kids[1..][k].info.name])
    {
      assert kids[1..][k] == kids[k + 1];
    }
  }

  lemma {:induction false} PutSame(t: Tree, p: seq<Name>)
    requires |Lookup(t, p)| == 1
    ensures Put(t, p, Lookup(t, p)[0]) == t
    decreases |p|
  {
    if |p| > 0 {
      var k := FindKid(t.kids, p[0]);
      PutSame(t.kids[k], p[1..]);
      assert t.kids[k := t.kids[k]] == t.kids;
    }
  }

  const EMPTY: Tree := Tree(NewInfo([SLASH], DirAttrs), [])

  /** Save, then load, whatever follows the end mark: the tree comes back as it was exactly when it is plain. */
  lemma SessionRoundTrip(kids: seq<Tree>, junk: seq<byte>)
    requires SavableKids(kids, [])
    ensures forall k :: 0 <= k < |kids| ==> TimesFit(kids[k])
    ensures var loaded := ParseEntries(ForestBytes(kids, []) + Le(2, END_MARK) + junk, EMPTY);
            && loaded == EMPTY.(kids := ReadForest(kids))
            && (loaded == EMPTY.(kids := kids) <==> PlainForest(kids))
  {
    hide ForestBytes, SavableKids, ParseEntries, Le, ReadForest, PlainForest;
    SavableKidsTimesFit(kids, []);
    ForestRoundTrip(EMPTY, [], kids, Le(2, END_MARK) + junk);
    assert EMPTY.kids + ReadForest(kids) == ReadForest(kids);
    EndMarkStops(junk, EMPTY.(kids := ReadForest(kids)));
    assert ForestBytes(kids, []) + Le(2, END_MARK) + junk == ForestBytes(kids, []) + (Le(2, END_MARK) + junk);
    ReadForestIsPlain(kids);
  }

  // ----- a directory with clusters -----

  /** The reader takes the clusters of a directory for records.  It stops at the first one that is no possible
      length. */
  lemma ClustersStop(clusters: seq<nat>, rest: seq<byte>, t: Tree)
    requires |clusters| > 0 && clusters[0] % 0x1_0000 >= MAX_PATH
    ensures ParseEntries(ClusterBytes(clusters) + rest, t) == t
  {
    var data, c := ClusterBytes(clusters) + rest, clusters[0];
    FirstTwo(c);
    assert data[..2] == Le(8, c)[..2];
    assert !EntryPresent(data);
  }

  lemma FirstTwo(v: nat)
    ensures FromLe(Le(8, v)[..2]) == v % 0x1_0000
  {
    var b := Le(8, v);
    assert b[0] == v % 256 && b[1..] == Le(7, v / 256) && b[1] == v / 256 % 256;
    var low := b[..2];
    assert low[0] == b[0] && low[1..] == [b[1]];
    assert FromLe(low[1..]) == b[1] + 256 * FromLe([]);
    assert v % 0x1_0000 == v % 256 + 256 * (v / 256 % 256);
  }

  lemma {:induction false} ForestConcat(a: seq<Tree>, b: seq<Tree>, path: seq<Name>)
    requires forall k :: 0 <= k < |a| ==> TimesFit(a[k])
    requires forall k :: 0 <= k < |b| ==> TimesFit(b[k])
    ensures ForestBytes(a + b, path) == ForestBytes(a, path) + ForestBytes(b, path)
    decreases |a|
  {
    hide TimesFit, TreeBytes;
    if |a| == 0 {
      assert a + b == b;
    } else {
      assert (a + b)[1..] == a[1..] + b;
      ForestConcat(a[1..], b, path);
    }
  }

  /** So everything after such a directory is lost, and what is below it, and its clusters: whatever the rest of the
      tree
      is, it is not read back as it was. */
  lemma SessionStopsAtDirectory(before: seq<Tree>, d: Tree, after: seq<Tree>, junk: seq<byte>)
    requires SavableKids(before, []) && SavableInfo(d.info) && |Joined([d.info.name])| < MAX_PATH
    requires d.info.isDir && |d.info.clusterList| > 0 && d.info.clusterList[0] % 0x1_0000 >= MAX_PATH
    requires forall k :: 0 <= k < |before| ==> before[k].info.name != d.info.name
    requires TimesFit(d) && forall k :: 0 <= k < |after| ==> TimesFit(after[k])
    ensures forall k :: 0 <= k < |before + [d] + after| ==> TimesFit((before + [d] + after)[k])
    ensures var loaded := ParseEntries(ForestBytes(before + [d] + after, []) + Le(2, END_MARK) + junk, EMPTY);
            && loaded == EMPTY.(kids := ReadForest(before) + [Tree(ReadInfo(d.info), [])])
            && loaded != EMPTY.(kids := before + [d] + after)
  {
    hide ForestBytes, SavableKids, ParseEntries, Le, ReadForest, TimesFit, Joined, RecordBytes, PrintedPath,
         SavableInfo,
         ClusterBytes, NameOk;
    SavableKidsTimesFit(before, []);
    var kids := before + [d] + after;
    var tail := Le(2, END_MARK) + junk;
    var name := [d.info.name];
    var clusters := d.info.clusterList;
    ForestConcat(before + [d], after, []);
    ForestConcat(before, [d], []);
    OneTree(d);
    var below := ForestBytes(d.kids, name) + ForestBytes(after, []) + tail;
    var record := RecordBytes(PrintedPath(name), d.info);
    assert ForestBytes(kids, []) + Le(2, END_MARK) + junk == ForestBytes(before, []) + (record + below);
    ForestRoundTrip(EMPTY, [], before, record + below);
    var t := EMPTY.(kids := ReadForest(before));
    assert EMPTY.kids + ReadForest(before) == ReadForest(before);
    assert [] + name == name;
    RecordRoundTrip(t, [], d.info, below);
    ClustersStop(clusters, below, t.(kids := t.kids + [Tree(ReadInfo(d.info), [])]));
    assert kids[|before|] == d && (ReadForest(before) + [Tree(ReadInfo(d.info), [])])[|before|].info.clusterList == [];
  }

  lemma OneTree(d: Tree)
    requires TimesFit(d) && d.info.isDir
    ensures FitsSigned(8, d.info.mtime) && forall k :: 0 <= k < |d.kids| ==> TimesFit(d.kids[k])
    ensures ForestBytes([d], [])
            == RecordBytes(PrintedPath([d.info.name]), d.info) + ForestBytes(d.kids, [d.info.name])
  {
    hide RecordBytes, PrintedPath;
    var name := d.info.name;
    PathPrinted([], name);
    assert [] + [name] == [name];
    assert ForestBytes([d], []) == TreeBytes(d, [] + [name]) + ForestBytes([d][1..], []);
  }

  /** Such a tree: a directory with one cluster, and a file after it that is lost. */
  lemma FileAfterDirectory() returns (kids: seq<Tree>)
    ensures |kids| == 2 && forall k :: 0 <= k < |kids| ==> TimesFit(kids[k])
    ensures |ParseEntries(ForestBytes(kids, []) + Le(2, END_MARK), EMPTY).kids| == 1
  {
    hide ForestBytes, ParseEntries, Le;
    var d := Tree(NewInfo([100], DirAttrs).(clusterList := [0x1_2000], clusterSize := 0x1000), []);
    var f := Tree(NewInfo([102], DirAttrs.(isDir := false)), []);
    Limits();
    SessionStopsAtDirectory([], d, [f], []);
    kids := [d, f];
    assert [] + [d] + [f] == kids;
    assert ForestBytes(kids, []) + Le(2, END_MARK) + [] == ForestBytes(kids, []) + Le(2, END_MARK);
  }

  /** The end mark is not the length of any path. */
  lemma EndMarkStops(junk: seq<byte>, t: Tree)
    ensures ParseEntries(Le(2, END_MARK) + junk, t) == t
  {
    Limits();
    LeRoundTrip(2, END_MARK);
    assert (Le(2, END_MARK) + junk)[..2] == Le(2, END_MARK);
  }
}

/** The header of a session file: src/core/session.c:308-471 and 473-777. */
module SessionHeader {
  import opened Bits
  import opened Disks
  import opened LittleEndian
  import opened SessionFormat

  /** "RECOVRY_SES" with its NUL. */
  const MAGIC: seq<byte> := [82, 69, 67, 79, 86, 82, 89, 95, 83, 69, 83, 0]
  const VERSION: nat := 1
  const MAX_MODEL: nat := 256
  const HEADER_END: nat := 116
  /** SESSION_FLAG_LUKS_DECRYPTED */
  const LUKS_DECRYPTED: nat := 8

  /** What session_save is told about the scan, the disk and the partition. */
  datatype Header = Header(flags: nat, opType: nat, timestamp: nat, progress1: nat, progress2: nat, resumePhase: int,
                           resumeOffset: nat, sectorSize: nat, diskSize: nat, partOffset: nat, partSize: nat,
                             upartType: nat,
                           partTypeI386: nat, device: seq<byte>, model: seq<byte>, filter: seq<byte>)

  /** session_info_t, without its tree. */
  datatype SessionInfo = SessionInfo(version: nat, header: Header, encrypted: nat, luksOffset: nat)

  /** A model that is too long is not recorded. */
  function SavedModel(h: Header): seq<byte> {
    if |h.model| > MAX_MODEL then [] else h.model
  }

  /** Lengths are cut to 16 bits, and the strings with them. */
  function Cut(s: seq<byte>): (c: seq<byte>)
    ensures |c| < 0x1_0000 && (|s| < 0x1_0000 ==> c == s)
  {
    s[..|s| % 0x1_0000]
  }

  predicate Decrypted(h: Header) {
    Flag(h.flags, LUKS_DECRYPTED)
  }

  const HEADER_WIDTHS: seq<nat> := [4, 4, 4, 8, 8, 8, 4, 8, 4, 8, 8, 8, 4, 4, 4, 8, 2, 2, 2, 2]

  lemma HeaderWidth()
    ensures |MAGIC| + Total(HEADER_WIDTHS) == HEADER_END
  {
    hide Total;
    TotalOfFour(4, 4, 4, 8);
    TotalOfFour(8, 8, 4, 8);
    TotalOfFour(4, 8, 8, 8);
    TotalOfFour(2, 2, 2, 2);
    TotalConcat([4, 4, 4, 8] + [8, 8, 4, 8] + [4, 8, 8, 8] + [4, 4, 4, 8], [2, 2, 2, 2]);
    TotalConcat([4, 4, 4, 8] + [8, 8, 4, 8] + [4, 8, 8, 8], [4, 4, 4, 8]);
    TotalConcat([4, 4, 4, 8] + [8, 8, 4, 8], [4, 8, 8, 8]);
    TotalConcat([4, 4, 4, 8], [8, 8, 4, 8]);
    assert HEADER_WIDTHS == [4, 4, 4, 8] + [8, 8, 4, 8] + [4, 8, 8, 8] + [4, 4, 4, 8] + [2, 2, 2, 2];
  }

  function HeaderValues(h: Header): (v: seq<nat>)
    requires FitsSigned(4, h.resumePhase)
    ensures |v| == |HEADER_WIDTHS|
  {
    [VERSION, h.flags, h.opType, h.timestamp, h.progress1, h.progress2, ToUnsigned(4, h.resumePhase), h.resumeOffset,
     h.sectorSize, h.diskSize, h.partOffset, h.partSize, h.upartType, h.partTypeI386,
     if Decrypted(h) then 1 else 0, if Decrypted(h) then h.partOffset else 0,
     |Cut(h.device)|, |SavedModel(h)|, |Cut(h.filter)|, 0]
  }

  function HeaderFields(h: Header): (fs: seq<Field>)
    requires FitsSigned(4, h.resumePhase)
    ensures |fs| == |HEADER_WIDTHS|
    ensures forall i :: 0 <= i < |fs| ==> fs[i].width in {1, 2, 4, 8}
  {
    var v := HeaderValues(h);
    assert forall i :: 0 <= i < |HEADER_WIDTHS| ==> HEADER_WIDTHS[i] in {1, 2, 4, 8};
    seq(|HEADER_WIDTHS|, i requires 0 <= i < |HEADER_WIDTHS| => Field(HEADER_WIDTHS[i], v[i]))
  }

  function Strings(h: Header): seq<byte> {
    Cut(h.device) + SavedModel(h) + Cut(h.filter)
  }

  /** Up to the next multiple of 8. */
  function Padded(n: nat): (p: nat)
    ensures n <= p < n + 8 && p % 8 == 0
  {
    (n + 7) / 8 * 8
  }

  function HeaderBytes(h: Header): (b: seq<byte>)
    requires FitsSigned(4, h.resumePhase)
  {
    var end := HEADER_END + |Strings(h)|;
    MAGIC + Pack(HeaderFields(h)) + Strings(h) + NulBytes(Padded(end) - end)
  }

  // ----- loading -----

  /** The header fields of a file. */
  function HeaderOf(data: seq<byte>): (v: seq<nat>)
    requires |data| >= HEADER_END
    ensures |v| == 20
  {
    HeaderWidth();
    Unpack(HEADER_WIDTHS, data[12..])
  }

  /** Where the tree starts. */
  function TreeStart(v: seq<nat>): (p: nat)
    requires |v| == 20
    ensures p >= HEADER_END + v[16] + v[17] + v[18]
  {
    Padded(HEADER_END + v[16] + v[17] + v[18])
  }

  /** What session_load insists on before it reads the tree. */
  predicate Loadable(data: seq<byte>) {
    && |data| >= HEADER_END && data[..12] == MAGIC
    && HeaderOf(data)[0] == VERSION && TreeStart(HeaderOf(data)) <= |data|
  }

  function InfoOf(v: seq<nat>, strings: seq<byte>): SessionInfo
    requires |v| == 20 && v[16] + v[17] + v[18] <= |strings|
  {
    SessionInfo(v[0],
                Header(v[1], v[2], v[3], v[4], v[5], ToSigned(4, v[6]), v[7], v[8], v[9], v[10], v[11], v[12], v[13],
                       CStr(strings[..v[16]]), CStr(strings[v[16]..v[16] + v[17]]),
                       CStr(strings[v[16] + v[17]..v[16] + v[17] + v[18]])),
                v[14], v[15])
  }

  function LoadedInfo(data: seq<byte>): SessionInfo
    requires Loadable(data)
  {
    InfoOf(HeaderOf(data), data[HEADER_END..])
  }

  function TreePart(data: seq<byte>): seq<byte>
    requires Loadable(data)
  {
    data[TreeStart(HeaderOf(data))..]
  }

  // ----- round trip -----

  /** The numbers fit their fields; C strings hold no NUL. */
  ghost predicate SavableHeader(h: Header) {
    && h.flags < Limit(4) && h.opType < Limit(4) && h.timestamp < Limit(8) && h.progress1 < Limit(8)
    && h.progress2 < Limit(8)
    && FitsSigned(4, h.resumePhase) && h.resumeOffset < Limit(8) && h.sectorSize < Limit(4) && h.diskSize < Limit(8)
    && h.partOffset < Limit(8) && h.partSize < Limit(8) && h.upartType < Limit(4) && h.partTypeI386 < Limit(4)
    && 0 !in h.device && 0 !in h.model && 0 !in h.filter
  }

  lemma HeaderHolds(h: Header)
    requires SavableHeader(h)
    ensures Holds(HeaderFields(h), HEADER_WIDTHS, HeaderValues(h))
  {
    hide Limit, Decrypted, Cut, FitsSigned, Flag;
    Limits();
  }

  /** A saved header loads, to what was saved but for a long model or over-long strings. */
  lemma HeaderRoundTrip(h: Header, tree: seq<byte>)
    requires SavableHeader(h)
    ensures var data := HeaderBytes(h) + tree;
            && Loadable(data) && TreePart(data) == tree && HeaderOf(data) == HeaderValues(h)
            && LoadedInfo(data) == SessionInfo(VERSION,
                                               h.(device := Cut(h.device), model := SavedModel(h),
                                                  filter := Cut(h.filter)),
                                               if Decrypted(h) then 1 else 0, if Decrypted(h) then h.partOffset else 0)
  {
    hide Pack, Unpack, Total, Limit, HeaderFields, HeaderValues, NulBytes, Decrypted, InfoOf, CStr;
    var end := HEADER_END + |Strings(h)|;
    var fields, pad := Pack(HeaderFields(h)), NulBytes(Padded(end) - end);
    HeaderWidth();
    HeaderHolds(h);
    UnpackOfPack(HeaderFields(h), HEADER_WIDTHS, HeaderValues(h), Strings(h) + pad + tree);
    FourPieces(MAGIC, fields, Strings(h), pad, tree);
    var data := HeaderBytes(h) + tree;
    InfoOfSaved(h, data[HEADER_END..], pad + tree);
    assert HeaderOf(data) == HeaderValues(h);
    assert data[Padded(end)..] == data[end..][Padded(end) - end..] == tree;
  }

  lemma InfoOfSaved(h: Header, strings: seq<byte>, rest: seq<byte>)
    requires SavableHeader(h) && strings == Strings(h) + rest
    ensures |HeaderValues(h)| == 20
    ensures var v := HeaderValues(h);
            && v[0] == VERSION && v[16] + v[17] + v[18] == |Strings(h)|
            && InfoOf(v, strings) == SessionInfo(VERSION,
                                                 h.(device := Cut(h.device), model := SavedModel(h),
                                                    filter := Cut(h.filter)),
                                                 if Decrypted(h) then 1 else 0, if Decrypted(h) then h.partOffset
                                                   else 0)
  {
    hide Limit, Decrypted, Cut, CStr, FitsSigned, ToSigned, ToUnsigned;
    StringPieces(Cut(h.device), SavedModel(h), Cut(h.filter), rest, strings);
    SignedRoundTrip(4, h.resumePhase);
    CutKeepsNuls(h.device);
    CutKeepsNuls(h.filter);
  }

  lemma CutKeepsNuls(s: seq<byte>)
    requires 0 !in s
    ensures 0 !in Cut(s)
  {
  }

  lemma StringPieces(a: seq<byte>, b: seq<byte>, c: seq<byte>, rest: seq<byte>, at: seq<byte>)
    requires at == (a + b + c) + rest
    ensures at[..|a|] == a && at[|a|..|a| + |b|] == b && at[|a| + |b|..|a| + |b| + |c|] == c
  {
  }
}

/** Saving and loading: src/core/session.c. */
module Sessions {
  import opened Bits
  import opened Disks
  import opened LittleEndian
  import opened Files
  import opened PathTree
  import opened Clipping
  import opened ScanTrees
  import opened SessionFormat
  import opened SessionHeader

  // ----- writing the tree -----

  /** The names from below the root down to node `id`. */
  ghost function PathTo(nodes: Nodes, id: nat): seq<Name>
    requires Linked(nodes) && id < |nodes|
    decreases id
  {
    if id == 0 then []
    else
      assert LinkedAt(nodes, id);
      PathTo(nodes, nodes[id].parent) + [nodes[id].info.name]
  }

  lemma {:induction false} AncestryIsDeepest(nodes: Nodes, id: nat, max: nat)
    requires Linked(nodes) && id < |nodes|
    ensures Ancestry(nodes, id, 0, max) == Deepest(PathTo(nodes, id), max)
    decreases id
  {
    if max > 0 && id > 0 {
      assert LinkedAt(nodes, id);
      AncestryIsDeepest(nodes, nodes[id].parent, max - 1);
    }
  }

  lemma ChildPath(nodes: Nodes, id: nat, k: nat)
    requires Linked(nodes) && id < |nodes| && k < |nodes[id].children|
    ensures LinkedAt(nodes, id) && id < nodes[id].children[k]
    ensures Abs(nodes, nodes[id].children[k]) == Abs(nodes, id).kids[k]
    ensures PathTo(nodes, nodes[id].children[k]) == PathTo(nodes, id) + [Abs(nodes, id).kids[k].info.name]
  {
    assert LinkedAt(nodes, id);
    assert LinkedAt(nodes, nodes[id].children[k]);
  }

  /** The loop over cluster_list in session_write_node_rec. */
  method WriteClusters(f: File, clusters: seq<nat>) returns (ok: bool)
    requires |f.data| <= f.limit
    modifies f`data
    ensures old(f.data) <= f.data && |f.data| <= f.limit
    ensures ok <==> |old(f.data)| + 8 * |clusters| <= f.limit
    ensures ok ==> f.data == old(f.data) + ClusterBytes(clusters)
  {
    hide Le;
    for i := 0 to |clusters|
      invariant old(f.data) <= f.data && |f.data| <= f.limit
      invariant f.data + ClusterBytes(clusters[i..]) == old(f.data) + ClusterBytes(clusters)
    {
      assert clusters[i..][1..] == clusters[i + 1..];
      Split(f.data, Le(8, clusters[i]), ClusterBytes(clusters[i + 1..]));
      ok := f.WriteLe64(clusters[i]);
      if !ok {
        return;
      }
    }
    ok := true;
  }

  /** session_write_node_rec: 0, or -1 when the file cannot take the record. */
  method SessionWriteNodeRec(f: File, tree: ScanTree, node: nat) returns (ret: int)
    requires tree.Valid() && node < |tree.nodes| && TimesFit(Abs(tree.nodes, node)) && |f.data| <= f.limit
    modifies f`data
    ensures |f.data| <= f.limit && ret in {0, -1}
    ensures var b := TreeBytes(Abs(tree.nodes, node), PathTo(tree.nodes, node));
            && (ret == 0 <==> |old(f.data)| + |b| <= f.limit)
            && (ret == 0 ==> f.data == old(f.data) + b)
    decreases |tree.nodes| - node, 1
  {
    hide Abs, Ancestry, PathTo, Joined, ForestBytes, Pack, Le, Limit, ClusterBytes, Linked, WellNamed, CountFiles,
         FlagByte, TimesFit;
    var nodes := tree.nodes;
    var path := tree.TreeGetPath(node, 0, MAX_PATH);
    AncestryIsDeepest(nodes, node, MAX_CHAIN);
    ghost var names := PathTo(nodes, node);
    ghost var t := Abs(nodes, node);
    TimesFitParts(t);
    AbsInfo(nodes, node);
    assert path == PrintedPath(names);
    if |path| == 0 {
      return 0;
    }
    var i := nodes[node].info;
    var ok := f.WriteFields([Field(2, |path|)] + FixedFields(i));
    if !ok {
      FieldsFirst(path, i);
      return -1;
    }
    ok := f.Fwrite(path);
    if !ok {
      FieldsFirst(path, i);
      return -1;
    }
    ok := WriteClusters(f, i.clusterList);
    if !ok {
      FieldsFirst(path, i);
      return -1;
    }
    FieldsFirst(path, i);
    assert f.data == old(f.data) + RecordBytes(path, i);
    if i.isDir {
      ghost var mid := f.data;
      ret := WriteChildren(f, tree, node);
      Split(old(f.data), RecordBytes(path, i), ForestBytes(t.kids, names));
    } else {
      ret := 0;
    }
  }

  lemma FieldsFirst(path: seq<byte>, i: Info)
    requires FitsSigned(8, i.mtime)
    ensures var fields := Pack([Field(2, |path|)] + FixedFields(i));
            && RecordBytes(path, i) == fields + path + ClusterBytes(i.clusterList)
            && |RecordBytes(path, i)| == |fields| + |path| + 8 * |i.clusterList|
  {
    hide FlagByte, Le, Pack;
    PackFirst(Field(2, |path|), FixedFields(i));
  }

  /** td_list_for_each over the children of a node. */
  method WriteChildren(f: File, tree: ScanTree, node: nat) returns (ret: int)
    requires tree.Valid() && node < |tree.nodes| && TimesFit(Abs(tree.nodes, node)) && |f.data| <= f.limit
    modifies f`data
    ensures |f.data| <= f.limit && ret in {0, -1}
    ensures TimesFit(Abs(tree.nodes, node))
    ensures var b := ForestBytes(Abs(tree.nodes, node).kids, PathTo(tree.nodes, node));
            && (ret == 0 <==> |old(f.data)| + |b| <= f.limit)
            && (ret == 0 ==> f.data == old(f.data) + b)
    decreases |tree.nodes| - node, 0
  {
    hide Ancestry, PathTo, Joined, TreeBytes, Linked, WellNamed, CountFiles, TimesFit;
    var nodes := tree.nodes;
    LinkedEverywhere(nodes, node);
    var ch := nodes[node].children;
    ghost var kids, names := Abs(nodes, node).kids, PathTo(nodes, node);
    TimesFitParts(Abs(nodes, node));
    assert kids[0..] == kids;
    for i := 0 to |ch|
      invariant |f.data| <= f.limit
      invariant f.data + ForestBytes(kids[i..], names) == old(f.data) + ForestBytes(kids, names)
    {
      assert kids[i..][1..] == kids[i + 1..];
      ChildPath(nodes, node, i);
      Split(f.data, TreeBytes(kids[i], names + [kids[i].info.name]), ForestBytes(kids[i + 1..], names));
      ret := SessionWriteNodeRec(f, tree, ch[i]);
      if ret != 0 {
        return;
      }
    }
    ret := 0;
  }

  /** session_write_tree */
  method SessionWriteTree(f: File, tree: ScanTree) returns (ret: int)
    requires tree.Valid() && TimesFit(tree.Root()) && |f.data| <= f.limit
    modifies f`data
    ensures |f.data| <= f.limit && ret in {0, -1}
    ensures TimesFit(tree.Root()) && var b := ForestBytes(tree.Root().kids, []);
            && (ret == 0 <==> |old(f.data)| + |b| <= f.limit)
            && (ret == 0 ==> f.data == old(f.data) + b)
  {
    ret := WriteChildren(f, tree, 0);
  }

  // ----- reading the tree -----

  /** The loop that fills cluster_list. */
  method ReadClusters(f: File, count: nat) returns (clusters: seq<nat>)
    modifies f`pos
    ensures clusters == Clusters(old(f.Rest()), count)
    ensures f.Rest() == AfterClusters(old(f.Rest()), count)
  {
    hide FromLe, Clusters, AfterClusters, Zeros, File.Rest;
    clusters := [];
    ghost var was := f.Rest();
    for i := 0 to count
      invariant clusters + Clusters(f.Rest(), count - i) == Clusters(was, count)
      invariant AfterClusters(f.Rest(), count - i) == AfterClusters(was, count)
    {
      ClustersStep(f.Rest(), count - i);
      var b := f.Fread(8);
      if |b| < 8 {
        // the rest of the zeroed array stays as it is
        clusters := clusters + Zeros(count - i);
        return;
      }
      Split(clusters, [FromLe(b)], Clusters(f.Rest(), count - i - 1));
      clusters := clusters + [FromLe(b)];
    }
    ClustersStep(f.Rest(), 0);
  }

  lemma ClustersStep(data: seq<byte>, n: nat)
    ensures Clusters(data, n) == if n
              == 0 then [] else if |data| < 8 then Zeros(n) else [FromLe(data[..8])] + Clusters(data[8..], n - 1)
    ensures AfterClusters(data, n) == if n
              == 0 then data else if |data| < 8 then [] else AfterClusters(data[8..], n - 1)
  {
    hide FromLe;
  }

  /** One turn of the loop in session_read_tree; false ends it. */
  method ReadEntry(f: File, tree: ScanTree) returns (more: bool)
    requires tree.Valid()
    modifies f`pos, tree
    ensures tree.Valid()
    ensures more ==>
              |f.Rest()| < |old(f.Rest())|
                && ParseEntries(f.Rest(), tree.Root()) == ParseEntries(old(f.Rest()), old(tree.Root()))
    ensures !more ==> tree.Root() == ParseEntries(old(f.Rest()), old(tree.Root()))
  {
    hide ParseEntries, EntryPresent, Entered, FromLe, Unpack, Total, HasClusters, File.Rest;
    ghost var data := f.Rest();
    NothingToParse(data, tree.Root());
    var ok, v, pathBuf := ReadFixed(f);
    if !ok {
      return false;
    }
    ParseStep(data, tree.Root());
    PresentSize(data);
    StoreEntry(f, tree, v, pathBuf);
    more := true;
  }

  lemma NothingToParse(data: seq<byte>, t: Tree)
    ensures !EntryPresent(data) ==> ParseEntries(data, t) == t
  {
  }

  lemma PresentSize(data: seq<byte>)
    requires EntryPresent(data)
    ensures |data| >= 2 && 2 + FIXED + FromLe(data[..2]) <= |data|
  {
  }

  /** The length, the fixed fields and the path of an entry. */
  method ReadFixed(f: File) returns (ok: bool, v: seq<nat>, pathBuf: seq<byte>)
    modifies f`pos
    ensures Total(WIDTHS) == FIXED && (ok <==> EntryPresent(old(f.Rest())))
    ensures ok ==>
              var data := old(f.Rest());
              var len := FromLe(data[..2]);
              && v == Unpack(WIDTHS, data[2..]) && pathBuf == data[2 + FIXED..2 + FIXED + len]
              && f.Rest() == data[2 + FIXED + len..]
  {
    hide FromLe, Unpack, Total, File.Rest;
    FixedWidth();
    ghost var data := f.Rest();
    v, pathBuf := [], [];
    var lenBytes := f.Fread(2);
    if |lenBytes| != 2 {
      return false, [], [];
    }
    var pathLen := FromLe(lenBytes);
    if pathLen == END_MARK {
      return false, [], [];
    }
    ok, v := f.ReadFields(WIDTHS);
    if !ok || pathLen >= MAX_PATH {
      return false, [], [];
    }
    DropTwice(data, 2, FIXED);
    ok, pathBuf := ReadString(f, pathLen);
    if ok {
      DropTwice(data, 2 + FIXED, pathLen);
    }
  }

  /** The part of the loop that changes the tree. */
  method StoreEntry(f: File, tree: ScanTree, v: seq<nat>, pathBuf: seq<byte>)
    requires tree.Valid() && |v| == 8
    modifies f`pos, tree
    ensures tree.Valid() && tree.Root() == Entered(old(tree.Root()), pathBuf, v, old(f.Rest()))
    ensures f.Rest() == if HasClusters(v) then AfterClusters(old(f.Rest()), v[6]) else old(f.Rest())
  {
    hide Tokens, CStr, Clusters, AfterClusters, Flag, AddPath, Put, Linked, WellNamed, Abs, CountFiles, Resolve, Lookup;
    var path := CStr(pathBuf);
    var id := tree.TreeAddPath(path, EntryAttrs(v));
    var node := tree.TreeFindPath(path);
    ghost var t1 := tree.Root();
    ResolveIsLookup(tree.nodes, 0, Tokens(path));
    AbsInfo(tree.nodes, id);
    ghost var was := tree.nodes[id].info;
    var info := tree.nodes[node].info.(marked := Flag(v[0], 2), orphan := Flag(v[0], 8), expanded := Flag(v[0], 16),
                                       backupRestored := Flag(v[0], 32), backupModified := Flag(v[0], 64));
    ghost var data := f.Rest();
    if v[6] > 0 && !Flag(v[0], 1) {
      var clusters := ReadClusters(f, v[6]);
      info := info.(clusterList := clusters, clusterSize := v[7]);
    }
    assert info == EntryInfo(was, v, data);
    tree.SetInfo(node, info, Tokens(path));
  }

  /** session_read_tree: it rebuilds what it can and never fails. */
  method SessionReadTree(f: File, tree: ScanTree) returns (ret: int)
    requires tree.Valid()
    modifies f`pos, tree
    ensures ret == 0 && tree.Valid() && tree.Root() == ParseEntries(old(f.Rest()), old(tree.Root()))
  {
    var more := true;
    while more
      invariant tree.Valid()
      invariant more ==> ParseEntries(f.Rest(), tree.Root()) == ParseEntries(old(f.Rest()), old(tree.Root()))
      invariant !more ==> tree.Root() == ParseEntries(old(f.Rest()), old(tree.Root()))
      decreases more, |f.Rest()|
    {
      more := ReadEntry(f, tree);
    }
    ret := 0;
  }

  // ----- whole files -----

  /** The header part of session_save. */
  method WriteHeader(f: File, h: Header) returns (ok: bool)
    requires FitsSigned(4, h.resumePhase) && |f.data| <= f.limit
    modifies f`data
    ensures |f.data| <= f.limit
    ensures ok <==> |old(f.data)| + |HeaderBytes(h)| <= f.limit
    ensures ok ==> f.data == old(f.data) + HeaderBytes(h)
  {
    hide Pack, HeaderFields, FitsSigned, Cut, SavedModel, Padded;
    var device, model, filter := Cut(h.device), SavedModel(h), Cut(h.filter);
    ok := f.Fwrite(MAGIC);
    if !ok {
      return;
    }
    ok := f.WriteFields(HeaderFields(h));
    if !ok {
      return;
    }
    ok := f.Fwrite(device);
    if !ok {
      return;
    }
    ok := f.Fwrite(model);
    if !ok {
      return;
    }
    ok := f.Fwrite(filter);
    if !ok {
      return;
    }
    var end := HEADER_END + |device| + |model| + |filter|;
    ok := WritePadding(f, Padded(end) - end);
    if ok {
      Associated(old(f.data), MAGIC, Pack(HeaderFields(h)), device, model, filter, NulBytes(Padded(end) - end));
    }
  }

  lemma Associated(z: seq<byte>, a: seq<byte>, b: seq<byte>, c: seq<byte>, d: seq<byte>, e: seq<byte>, g: seq<byte>)
    ensures z + a + b + c + d + e + g == z + (a + b + (c + d + e) + g)
  {
    Split(c, d, e);
    Split(z, a, b);
    Split(z, a + b, c + d + e);
    Split(z, a + b + (c + d + e), g);
    Split(z + a + b, c + d, e);
    Split(z + a + b, c, d);
  }

  method WritePadding(f: File, n: nat) returns (ok: bool)
    requires |f.data| <= f.limit
    modifies f`data
    ensures |f.data| <= f.limit
    ensures ok <==> |old(f.data)| + n <= f.limit
    ensures ok ==> f.data == old(f.data) + NulBytes(n)
  {
    for i := 0 to n
      invariant |f.data| <= f.limit
      invariant f.data == old(f.data) + NulBytes(i)
    {
      ok := f.Fwrite([0]);
      if !ok {
        return;
      }
      assert NulBytes(i + 1) == NulBytes(i) + [0];
    }
    ok := true;
  }

  /** The file of a tree. */
  ghost function SessionBytes(h: Header, root: Tree): seq<byte>
    requires FitsSigned(4, h.resumePhase) && TimesFit(root)
  {
    HeaderBytes(h) + SessionBody(root)
  }

  /** session_save, into a file just created; `removed` says that the file was removed again.  It is if the tree does
      not fit; if the header does not fit, what was written of it stays. */
  method SessionSave(f: File, tree: ScanTree, h: Header) returns (ret: int, removed: bool)
    requires f.data == [] && tree.Valid() && TimesFit(tree.Root()) && FitsSigned(4, h.resumePhase)
    modifies f`data
    ensures ret in {0, -1} && (ret == 0 <==> |SessionBytes(h, tree.Root())| <= f.limit)
    ensures removed <==> |HeaderBytes(h)| <= f.limit < |SessionBytes(h, tree.Root())|
    ensures ret == 0 ==> f.data == SessionBytes(h, tree.Root())
  {
    hide HeaderBytes, SessionBody, TimesFit, Linked, WellNamed, CountFiles, FitsSigned, Abs, ScanTree.Valid;
    ghost var root := tree.Root();
    ghost var head, body := HeaderBytes(h), SessionBody(root);
    TimesFitParts(root);
    var ok := WriteHeader(f, h);
    if !ok {
      return -1, false;
    }
    assert f.data == head;
    ret := WriteBody(f, tree);
    removed := ret != 0;
  }

  /** The tree and the end mark. */
  ghost function SessionBody(root: Tree): seq<byte>
    requires TimesFit(root)
  {
    ForestBytes(root.kids, []) + Le(2, END_MARK)
  }

  method WriteBody(f: File, tree: ScanTree) returns (ret: int)
    requires tree.Valid() && TimesFit(tree.Root()) && |f.data| <= f.limit
    modifies f`data
    ensures ret in {0, -1} && (ret == 0 <==> |old(f.data)| + |SessionBody(tree.Root())| <= f.limit)
    ensures ret == 0 ==> f.data == old(f.data) + SessionBody(tree.Root())
  {
    hide ForestBytes, TimesFit, Linked, WellNamed, CountFiles, Abs, Le, ScanTree.Valid;
    ghost var root := tree.Root();
    TimesFitParts(root);
    Split(f.data, ForestBytes(root.kids, []), Le(2, END_MARK));
    ret := SessionWriteTree(f, tree);
    if ret == 0 {
      var ok := f.WriteLe16(END_MARK);
      if !ok {
        ret := -1;
      }
    }
  }

  /** session_load from the start of a file: null when the file is refused. */
  method SessionLoad(f: File) returns (loaded: bool, info: SessionInfo, tree: ScanTree)
    requires f.pos == 0
    modifies f`pos
    ensures loaded <==> Loadable(f.data)
    ensures loaded ==>
              info == LoadedInfo(f.data) && fresh(tree) && tree.Valid()
                && tree.Root() == ParseEntries(TreePart(f.data), EMPTY)
  {
    hide Unpack, Total, InfoOf, Padded, File.Rest, ParseEntries, FromLe;
    tree := new ScanTree();
    info := SessionInfo(0, NO_HEADER, 0, 0);
    ghost var data := f.data;
    RestFromStart(f);
    HeaderWidth();
    var magic := f.Fread(12);
    if magic != MAGIC {
      return false, info, tree;
    }
    var ok, v := f.ReadFields(HEADER_WIDTHS);
    if !ok || v[0] != VERSION {
      return false, info, tree;
    }
    assert data[12..][Total(HEADER_WIDTHS)..] == data[HEADER_END..];
    var strings;
    ok, strings := ReadStrings(f, v);
    if !ok {
      return false, info, tree;
    }
    assert data[HEADER_END..][TreeStart(v) - HEADER_END..] == data[TreeStart(v)..];
    info := InfoOf(v, strings);
    assert strings == data[HEADER_END..][..v[16] + v[17] + v[18]];
    InfoOfPrefix(v, data[HEADER_END..]);
    var ret := SessionReadTree(f, tree);
    loaded := true;
  }

  const NO_HEADER: Header := Header(0, 0, 0, 0, 0, 0, 0, 0, 0, 0, 0, 0, 0, [], [], [])

  lemma RestFromStart(f: File)
    requires f.pos == 0
    ensures f.Rest() == f.data
  {
  }

  lemma InfoOfPrefix(v: seq<nat>, s: seq<byte>)
    requires |v| == 20 && v[16] + v[17] + v[18] <= |s|
    ensures InfoOf(v, s[..v[16] + v[17] + v[18]]) == InfoOf(v, s)
  {
    hide CStr, ToSigned;
    var t := s[..v[16] + v[17] + v[18]];
    assert t[..v[16]] == s[..v[16]] && t[v[16]..v[16] + v[17]] == s[v[16]..v[16] + v[17]];
    assert t[v[16] + v[17]..] == s[v[16] + v[17]..v[16] + v[17] + v[18]] == t[v[16] + v[17]..v[16] + v[17] + v[18]];
  }

  /** fread of a string of n bytes. */
  method ReadString(f: File, n: nat) returns (ok: bool, s: seq<byte>)
    modifies f`pos
    ensures ok <==> n <= |old(f.Rest())|
    ensures ok ==> s == old(f.Rest())[..n] && f.Rest() == old(f.Rest())[n..]
  {
    hide File.Rest;
    s := f.Fread(n);
    ok := |s| == n;
  }

  /** The next n bytes, after those already read. */
  method ReadMore(f: File, before: seq<byte>, n: nat, ghost was: seq<byte>) returns (ok: bool, s: seq<byte>)
    requires |before| <= |was| && before == was[..|before|] && f.Rest() == was[|before|..]
    modifies f`pos
    ensures ok <==> |before| + n <= |was|
    ensures ok ==> |s| == |before| + n && s == was[..|s|] && f.Rest() == was[|s|..]
  {
    hide File.Rest;
    var more;
    ok, more := ReadString(f, n);
    s := before + more;
    if ok {
      DropTwice(was, |before|, n);
      assert was[..|before|] + was[|before|..|before| + n] == was[..|before| + n];
    }
  }

  /** The three strings and the padding after them. */
  method ReadStrings(f: File, v: seq<nat>) returns (ok: bool, strings: seq<byte>)
    requires |v| == 20
    modifies f`pos
    ensures ok <==> TreeStart(v) - HEADER_END <= |old(f.Rest())|
    ensures ok ==>
              strings == old(f.Rest())[..v[16] + v[17] + v[18]]
                && f.Rest() == old(f.Rest())[TreeStart(v) - HEADER_END..]
  {
    hide File.Rest, Padded;
    ghost var was := f.Rest();
    var device, model;
    ok, device := ReadMore(f, [], v[16], was);
    if !ok {
      return false, [];
    }
    ok, model := ReadMore(f, device, v[17], was);
    if !ok {
      return false, [];
    }
    ok, strings := ReadMore(f, model, v[18], was);
    if !ok {
      return false, [];
    }
    ok := SkipPadding(f, TreeStart(v) - HEADER_END - |strings|);
    if ok {
      DropTwice(was, |strings|, TreeStart(v) - HEADER_END - |strings|);
    }
  }

  lemma DropTwice(s: seq<byte>, a: nat, b: nat)
    requires a + b <= |s|
    ensures s[a..][b..] == s[a + b..] && s[a..][..b] == s[a..a + b]
  {
  }

  method SkipPadding(f: File, n: nat) returns (ok: bool)
    modifies f`pos
    ensures ok <==> n <= |old(f.Rest())|
    ensures ok ==> f.Rest() == old(f.Rest())[n..]
  {
    hide File.Rest;
    ghost var was := f.Rest();
    for i := 0 to n
      invariant i <= |was| && f.Rest() == was[i..]
    {
      var b := f.Fread(1);
      if |b| != 1 {
        return false;
      }
      assert was[i..][1..] == was[i + 1..];
    }
    ok := true;
  }

  /** What session_save writes, session_load reads: the same header, and the same tree exactly when it is plain. */
  lemma SessionFileRoundTrip(h: Header, root: Tree)
    requires SavableHeader(h) && SavableKids(root.kids, []) && FitsSigned(8, root.info.mtime)
    ensures TimesFit(root)
    ensures var data := SessionBytes(h, root);
            && Loadable(data)
            && LoadedInfo(data) == SessionInfo(VERSION,
                                               h.(device := Cut(h.device), model := SavedModel(h),
                                                  filter := Cut(h.filter)),
                                               if Decrypted(h) then 1 else 0, if Decrypted(h) then h.partOffset else 0)
            && ParseEntries(TreePart(data), EMPTY) == EMPTY.(kids := ReadForest(root.kids))
            && (ParseEntries(TreePart(data), EMPTY) == EMPTY.(kids := root.kids) <==> PlainForest(root.kids))
  {
    hide HeaderBytes, ForestBytes, ParseEntries, LoadedInfo, TreePart, Loadable, Le;
    SavableKidsTimesFit(root.kids, []);
    SessionRoundTrip(root.kids, []);
    var tree := ForestBytes(root.kids, []) + Le(2, END_MARK);
    assert tree + [] == tree;
    HeaderRoundTrip(h, tree);
  }
}
