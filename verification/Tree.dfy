/** src/core/tree.c: the tree of scanned files.

    PathTree is the tree as a value.  ScanTree keeps the nodes the way the C code links them: a node
    is referred to by its index in `nodes`, and parent and child links are such references. */
module PathTree {
  import opened Disks

  type Name = seq<byte>

  const SLASH: byte := 47

  /** The fields of file_node_t other than its links. */
  datatype Info = Info(name: Name, isDir: bool, size: nat, firstSector: nat, numSectors: nat, mtime: int,
                       sectorSize: nat,
                       marked: bool, deleted: bool, expanded: bool, orphan: bool, backupRestored: bool,
                       backupModified: bool, clusterList: seq<nat>, clusterSize: nat)

  datatype Tree = Tree(info: Info, kids: seq<Tree>)

  /** The arguments of tree_add_path other than the path. */
  datatype Attrs = Attrs(isDir: bool, size: nat, firstSector: nat, numSectors: nat, mtime: int, sectorSize: nat,
                         deleted: bool)

  /** node_alloc */
  function NewInfo(name: Name, a: Attrs): Info {
    Info(name, a.isDir, a.size, a.firstSector, a.numSectors, a.mtime, a.sectorSize,
         false, a.deleted, false, false, false, false, [], 0)
  }

  const DirAttrs: Attrs := Attrs(true, 0, 0, 0, 0, 0, false)

  /** What adding an existing path does to its node: a live node can become deleted, never back. */
  function Touched(i: Info, a: Attrs): Info {
    if !i.deleted && a.deleted then
      if i.isDir then i.(deleted := true)
      else i.(deleted := true, size := a.size, firstSector := a.firstSector, numSectors := a.numSectors,
              mtime := a.mtime, sectorSize := a.sectorSize)
    else i
  }

  predicate NameOk(n: Name) {
    |n| > 0 && SLASH !in n && 0 !in n
  }

  // ----- paths as strings -----

  /** strtok_r over "/": the non-empty pieces between slashes. */
  function Tokens(s: seq<byte>): (ts: seq<Name>)
    ensures forall i :: 0 <= i < |ts| ==> |ts[i]| > 0 && SLASH !in ts[i] && (0 !in s ==> 0 !in ts[i])
    decreases |s|
  {
    if |s| == 0 then []
    else if s[0] == SLASH then Tokens(s[1..])
    else
      var n := PieceLength(s);
      [s[..n]] + Tokens(s[n..])
  }

  function PieceLength(s: seq<byte>): (n: nat)
    ensures n <= |s| && SLASH !in s[..n]
    ensures n < |s| ==> s[n] == SLASH
    ensures |s| > 0 && s[0] != SLASH ==> n > 0
  {
    if |s| == 0 || s[0] == SLASH then 0
    else
      var m := PieceLength(s[1..]);
      assert s[..m + 1] == [s[0]] + s[1..][..m];
      m + 1
  }

  /** "/a/b/c" */
  function Joined(path: seq<Name>): seq<byte> {
    if |path| == 0 then [] else [SLASH] + path[0] + Joined(path[1..])
  }

  lemma {:induction false} PieceOfName(n: Name, rest: seq<byte>)
    requires SLASH !in n && (|rest| > 0 ==> rest[0] == SLASH)
    ensures PieceLength(n + rest) == |n|
    decreases |n|
  {
    if |n| > 0 {
      assert (n + rest)[1..] == n[1..] + rest;
      PieceOfName(n[1..], rest);
    } else {
      assert n + rest == rest;
    }
  }

  /** Splitting a printed path gives the names back. */
  lemma {:induction false} TokensOfJoined(path: seq<Name>)
    requires forall i :: 0 <= i < |path| ==> NameOk(path[i])
    ensures Tokens(Joined(path)) == path
  {
    if |path| > 0 {
      var n, rest := path[0], Joined(path[1..]);
      assert NameOk(n);
      var s := Joined(path);
      assert s == [SLASH] + (n + rest);
      assert s[1..] == n + rest;
      PieceOfName(n, rest);
      assert (n + rest)[..|n|] == n && (n + rest)[|n|..] == rest;
      assert (n + rest)[0] == n[0] && n[0] in n;
      TokensOfJoined(path[1..]);
      assert path == [n] + path[1..];
    }
  }

  // ----- adding a path -----

  /** tree_find_child: the first kid with that name. */
  function FindKid(kids: seq<Tree>, name: Name): (r: nat)
    ensures r <= |kids|
    ensures r < |kids| ==> kids[r].info.name == name
    ensures forall i :: 0 <= i < r ==> kids[i].info.name != name
  {
    if |kids| == 0 || kids[0].info.name == name then 0 else 1 + FindKid(kids[1..], name)
  }

  /** tree_add_path below `t`, for the names `path`. */
  function AddPath(t: Tree, path: seq<Name>, a: Attrs): Tree
    decreases |path|
  {
    if |path| == 0 then t
    else
      var k := FindKid(t.kids, path[0]);
      if |path| == 1 then
        if k < |t.kids| then t.(kids := t.kids[k := t.kids[k].(info := Touched(t.kids[k].info, a))])
        else t.(kids := t.kids + [Tree(NewInfo(path[0], a), [])])
      else
        if k < |t.kids| then t.(kids := t.kids[k := AddPath(t.kids[k], path[1..], a)])
        else t.(kids := t.kids + [AddPath(Tree(NewInfo(path[0], DirAttrs), []), path[1..], a)])
  }

  /** Sibling names are distinct, non-empty and slash-free everywhere below `t`. */
  ghost predicate WellNamed(t: Tree)
    decreases t
  {
    && (forall i, j :: 0 <= i < j < |t.kids| ==> t.kids[i].info.name != t.kids[j].info.name)
    && forall i :: 0 <= i < |t.kids| ==> NameOk(t.kids[i].info.name) && WellNamed(t.kids[i])
  }

  lemma AddPathKeepsInfo(t: Tree, path: seq<Name>, a: Attrs)
    ensures AddPath(t, path, a).info == t.info
  {
  }

  /** The first node on the way to q, before and after q is added; before, it may be just created. */
  function FirstKid(t: Tree, q: seq<Name>, a: Attrs): Tree
    requires |q| > 0
  {
    var k := FindKid(t.kids, q[0]);
    if k < |t.kids| then t.kids[k] else Tree(NewInfo(q[0], if |q| == 1 then a else DirAttrs), [])
  }

  function FirstKidAfter(t: Tree, q: seq<Name>, a: Attrs): Tree
    requires |q| > 0
  {
    var kid := FirstKid(t, q, a);
    if |q| > 1 then AddPath(kid, q[1..], a)
    else if FindKid(t.kids, q[0]) < |t.kids| then kid.(info := Touched(kid.info, a)) else kid
  }

  lemma FirstKidChanges(t: Tree, q: seq<Name>, a: Attrs)
    requires |q| > 0
    ensures FirstKidAfter(t, q, a).info.name == q[0]
    ensures var k, kid' := FindKid(t.kids, q[0]), FirstKidAfter(t, q, a);
            AddPath(t, q, a) == t.(kids := if k < |t.kids| then t.kids[k := kid'] else t.kids + [kid'])
  {
    AddPathKeepsInfo(FirstKid(t, q, a), q[1..], a);
  }

  lemma WellNamedUpdate(t: Tree, k: nat, x: Tree)
    requires WellNamed(t) && k < |t.kids| && WellNamed(x) && x.info.name == t.kids[k].info.name
    ensures WellNamed(t.(kids := t.kids[k := x]))
  {
  }

  lemma WellNamedAppend(t: Tree, x: Tree)
    requires WellNamed(t) && WellNamed(x) && NameOk(x.info.name) && FindKid(t.kids, x.info.name) == |t.kids|
    ensures WellNamed(t.(kids := t.kids + [x]))
  {
    hide NameOk;
  }

  lemma {:induction false} AddPathKeepsNames(t: Tree, path: seq<Name>, a: Attrs)
    requires WellNamed(t) && forall i :: 0 <= i < |path| ==> NameOk(path[i])
    ensures WellNamed(AddPath(t, path, a)) && AddPath(t, path, a).info == t.info
    decreases |path|
  {
    hide NameOk, AddPath, FirstKidAfter;
    AddPathKeepsInfo(t, path, a);
    AddNoPath(t, path, a);
    if |path| > 0 {
      assert NameOk(path[0]);
      var k, kid := FindKid(t.kids, path[0]), FirstKid(t, path, a);
      FirstKidChanges(t, path, a);
      FirstKidNamed(t, path, a);
      if |path| > 1 {
        AddPathKeepsNames(kid, path[1..], a);
      }
      FirstKidAfterIs(t, path, a);
      if k < |t.kids| {
        WellNamedUpdate(t, k, FirstKidAfter(t, path, a));
      } else {
        WellNamedAppend(t, FirstKidAfter(t, path, a));
      }
    }
  }

  lemma AddNoPath(t: Tree, path: seq<Name>, a: Attrs)
    ensures |path| == 0 ==> AddPath(t, path, a) == t
  {
  }

  lemma FirstKidNamed(t: Tree, path: seq<Name>, a: Attrs)
    requires WellNamed(t) && |path| > 0
    ensures WellNamed(FirstKid(t, path, a))
  {
    hide NameOk;
  }

  lemma FirstKidAfterIs(t: Tree, path: seq<Name>, a: Attrs)
    requires |path| > 0
    ensures |path| > 1 ==> FirstKidAfter(t, path, a) == AddPath(FirstKid(t, path, a), path[1..], a)
    ensures |path| == 1 ==> FirstKidAfter(t, path, a).kids == FirstKid(t, path, a).kids
    ensures |path| == 1 && WellNamed(FirstKid(t, path, a)) ==> WellNamed(FirstKidAfter(t, path, a))
    ensures |path| == 1 ==> FirstKidAfter(t, path, a).info.isDir == FirstKid(t, path, a).info.isDir
  {
    hide AddPath, NameOk;
  }

  /** The node `path` leads to. */
  function Lookup(t: Tree, path: seq<Name>): (r: seq<Tree>)
    ensures |r| <= 1
    decreases |path|
  {
    if |path| == 0 then [t]
    else
      var k := FindKid(t.kids, path[0]);
      if k < |t.kids| then Lookup(t.kids[k], path[1..]) else []
  }

  function CountFiles(t: Tree): nat
    decreases t
  {
    (if t.info.isDir then 0 else 1) + SumFiles(t.kids)
  }

  function SumFiles(kids: seq<Tree>): nat
    decreases kids
  {
    if |kids| == 0 then 0 else CountFiles(kids[0]) + SumFiles(kids[1..])
  }

  lemma {:induction false} SumFilesAppend(kids: seq<Tree>, t: Tree)
    ensures SumFiles(kids + [t]) == SumFiles(kids) + CountFiles(t)
    decreases |kids|
  {
    if |kids| == 0 {
      assert kids + [t] == [t];
      assert SumFiles([t]) == CountFiles(t) + SumFiles([t][1..]);
    } else {
      assert (kids + [t])[1..] == kids[1..] + [t];
      SumFilesAppend(kids[1..], t);
    }
  }

  lemma {:induction false} SumFilesUpdate(kids: seq<Tree>, k: nat, t: Tree)
    requires k < |kids|
    ensures SumFiles(kids[k := t]) + CountFiles(kids[k]) == SumFiles(kids) + CountFiles(t)
    decreases |kids|
  {
    if k == 0 {
      assert kids[0 := t][1..] == kids[1..];
    } else {
      assert kids[k := t][1..] == kids[1..][k - 1 := t];
      SumFilesUpdate(kids[1..], k - 1, t);
    }
  }

  /** Adding a path makes one more file exactly when it names a new file. */
  lemma {:induction false} AddPathCount(t: Tree, path: seq<Name>, a: Attrs)
    ensures CountFiles(AddPath(t, path, a)) == CountFiles(t) + (if |Lookup(t, path)| == 0 && !a.isDir then 1 else 0)
    decreases |path|
  {
    hide AddPath, FirstKidAfter, CountFiles;
    AddNoPath(t, path, a);
    if |path| > 0 {
      var k, kid, after := FindKid(t.kids, path[0]), FirstKid(t, path, a), FirstKidAfter(t, path, a);
      FirstKidChanges(t, path, a);
      FirstKidAfterIs(t, path, a);
      CountOf(t);
      CountOf(AddPath(t, path, a));
      CountOf(kid);
      CountOf(after);
      if |path| > 1 {
        AddPathCount(kid, path[1..], a);
      }
      if k < |t.kids| {
        SumFilesUpdate(t.kids, k, after);
      } else {
        SumFilesAppend(t.kids, after);
      }
    }
  }

  lemma CountOf(t: Tree)
    ensures CountFiles(t) == (if t.info.isDir then 0 else 1) + SumFiles(t.kids)
  {
  }

  // ----- replacing the node at a path -----

  /** t with the subtree at `path` replaced by x. */
  function Put(t: Tree, path: seq<Name>, x: Tree): Tree
    decreases |path|
  {
    if |path| == 0 then x
    else
      var k := FindKid(t.kids, path[0]);
      if k < |t.kids| then t.(kids := t.kids[k := Put(t.kids[k], path[1..], x)]) else t
  }

  lemma FindKidUpdate(kids: seq<Tree>, k: nat, x: Tree, name: Name)
    requires k < |kids| && x.info.name == kids[k].info.name
    ensures FindKid(kids[k := x], name) == FindKid(kids, name)
  {
    var a, b := FindKid(kids[k := x], name), FindKid(kids, name);
    assert forall i :: 0 <= i < |kids| ==> kids[k := x][i].info.name == kids[i].info.name;
  }

  lemma PutKeepsName(t: Tree, path: seq<Name>, x: Tree)
    requires |Lookup(t, path)| == 1 && x.info.name == Lookup(t, path)[0].info.name
    ensures Put(t, path, x).info.name == t.info.name
  {
  }

  lemma {:induction false} PutLaws(t: Tree, path: seq<Name>, x: Tree, y: Tree)
    requires |Lookup(t, path)| == 1 && x.info.name == Lookup(t, path)[0].info.name
    ensures Lookup(Put(t, path, x), path) == [x]
    ensures Put(Put(t, path, x), path, y) == Put(t, path, y)
    decreases |path|
  {
    if |path| > 0 {
      var k := FindKid(t.kids, path[0]);
      PutLaws(t.kids[k], path[1..], x, y);
      PutKeepsName(t.kids[k], path[1..], x);
      FindKidUpdate(t.kids, k, Put(t.kids[k], path[1..], x), path[0]);
    }
  }

  /** Changing fields other than the name and the type of one node. */
  lemma {:induction false} PutInfoKeeps(t: Tree, path: seq<Name>, x: Tree)
    requires WellNamed(t) && |Lookup(t, path)| == 1
    requires var d := Lookup(t, path)[0];
             x.info.name == d.info.name && x.info.isDir == d.info.isDir && x.kids == d.kids
    ensures WellNamed(Put(t, path, x)) && CountFiles(Put(t, path, x)) == CountFiles(t)
    ensures Put(t, path, x).info.name == t.info.name && Put(t, path, x).info.isDir == t.info.isDir
    decreases |path|
  {
    if |path| > 0 {
      var k := FindKid(t.kids, path[0]);
      PutInfoKeeps(t.kids[k], path[1..], x);
      SumFilesUpdate(t.kids, k, Put(t.kids[k], path[1..], x));
    }
  }

  /** Replacing a child of the node at `path`. */
  lemma {:induction false} PutChild(t: Tree, path: seq<Name>, name: Name, x: Tree)
    requires |Lookup(t, path)| == 1
    requires FindKid(Lookup(t, path)[0].kids, name) < |Lookup(t, path)[0].kids|
    ensures var d := Lookup(t, path)[0];
            Put(t, path + [name], x) == Put(t, path, d.(kids := d.kids[FindKid(d.kids, name) := x]))
    ensures Lookup(t, path + [name]) == [Lookup(t, path)[0].kids[FindKid(Lookup(t, path)[0].kids, name)]]
    decreases |path|
  {
    if |path| == 0 {
      assert path + [name] == [name];
    } else {
      assert (path + [name])[0] == path[0] && (path + [name])[1..] == path[1..] + [name];
      PutChild(t.kids[FindKid(t.kids, path[0])], path[1..], name, x);
    }
  }

  /** A path whose last name is new is appended to its directory. */
  lemma {:induction false} AddPathNew(t: Tree, path: seq<Name>, name: Name, a: Attrs)
    requires |Lookup(t, path)| == 1 && FindKid(Lookup(t, path)[0].kids, name) == |Lookup(t, path)[0].kids|
    ensures var d := Lookup(t, path)[0];
            AddPath(t, path + [name], a) == Put(t, path, d.(kids := d.kids + [Tree(NewInfo(name, a), [])]))
    decreases |path|
  {
    if |path| == 0 {
      assert path + [name] == [name];
    } else {
      assert (path + [name])[0] == path[0] && (path + [name])[1..] == path[1..] + [name];
      AddPathNew(t.kids[FindKid(t.kids, path[0])], path[1..], name, a);
    }
  }

  /** What was added can be looked up. */
  lemma {:induction false} AddPathFound(t: Tree, path: seq<Name>, a: Attrs)
    ensures |Lookup(AddPath(t, path, a), path)| == 1
    ensures |path| > 0 ==> Lookup(AddPath(t, path, a), path)[0].info.name == path[|path| - 1]
    ensures AddPath(t, path, a).info == t.info
    decreases |path|
  {
    if |path| > 0 {
      var k := FindKid(t.kids, path[0]);
      var dir := Tree(NewInfo(path[0], DirAttrs), []);
      if k < |t.kids| {
        if |path| > 1 {
          AddPathFound(t.kids[k], path[1..], a);
          FindKidUpdate(t.kids, k, AddPath(t.kids[k], path[1..], a), path[0]);
        } else {
          FindKidUpdate(t.kids, k, t.kids[k].(info := Touched(t.kids[k].info, a)), path[0]);
        }
      } else {
        var x := if |path| > 1 then AddPath(dir, path[1..], a) else Tree(NewInfo(path[0], a), []);
        if |path| > 1 {
          AddPathFound(dir, path[1..], a);
        }
        FindKidAppend(t.kids, x, path[0]);
      }
    }
  }

  lemma FindKidAppend(kids: seq<Tree>, x: Tree, name: Name)
    requires FindKid(kids, name) == |kids|
    ensures FindKid(kids + [x], name) == if x.info.name == name then |kids| else |kids| + 1
  {
    var r := FindKid(kids + [x], name);
    assert forall i :: 0 <= i < |kids| ==> (kids + [x])[i] == kids[i];
    assert (kids + [x])[|kids|] == x;
  }

  /** p is q or leads to a directory on the way to q. */
  predicate OnTheWay(p: seq<Name>, q: seq<Name>) {
    0 < |p| <= |q| && q[..|p|] == p
  }

  lemma LookupAfterAdd(t: Tree, q: seq<Name>, a: Attrs, p: seq<Name>)
    requires |q| > 0 && |p| > 0
    ensures Lookup(AddPath(t, q, a), p) == if p[0] == q[0] then Lookup(FirstKidAfter(t, q, a), p[1..]) else Lookup(t, p)
  {
    hide AddPath, FirstKid, FirstKidAfter, FindKid;
    var k, kid, kid' := FindKid(t.kids, q[0]), FirstKid(t, q, a), FirstKidAfter(t, q, a);
    FirstKidChanges(t, q, a);
    if k < |t.kids| {
      FindKidUpdate(t.kids, k, kid', p[0]);
    } else if FindKid(t.kids, p[0]) == |t.kids| {
      FindKidAppend(t.kids, kid', p[0]);
    } else {
      FindKidEarlier(t.kids, kid', p[0]);
    }
  }

  /** Adding q, seen from any path p: what was there keeps its fields, but for what q itself does to its node;
      what appears is q and the missing directories on the way to it. */
  lemma {:induction false} AddPathLookup(t: Tree, q: seq<Name>, a: Attrs, p: seq<Name>)
    ensures var before, after := Lookup(t, p), Lookup(AddPath(t, q, a), p);
            if |before| == 1 then
              |after| == 1 && after[0].info == if p == q && |q| > 0 then Touched(before[0].info, a) else before[0].info
            else if OnTheWay(p, q) then
              |after| == 1 && after[0].info == NewInfo(p[|p| - 1], if p == q then a else DirAttrs)
            else
              after == []
    decreases |q|
  {
    hide Touched, NewInfo, OnTheWay, AddPath, FindKid;
    AddNothing(t, q, a);
    NothingOnTheWay(p, q);
    if |q| > 0 && |p| > 0 {
      PrefixStep(p, q);
      LookupAfterAdd(t, q, a, p);
      assert p == q <==> p[0] == q[0] && p[1..] == q[1..];
      if p[0] == q[0] {
        var kid := FirstKid(t, q, a);
        if |q| > 1 {
          AddPathLookup(kid, q[1..], a, p[1..]);
        }
        NothingOnTheWay(p[1..], q[1..]);
      }
    }
  }

  lemma AddNothing(t: Tree, q: seq<Name>, a: Attrs)
    ensures |q| == 0 ==> AddPath(t, q, a) == t
    ensures AddPath(t, q, a).info == t.info
  {
    AddPathFound(t, q, a);
  }

  lemma NothingOnTheWay(p: seq<Name>, q: seq<Name>)
    ensures |p| == 0 || |q| == 0 ==> !OnTheWay(p, q)
  {
  }

  lemma PrefixStep(p: seq<Name>, q: seq<Name>)
    requires |p| > 0 && |q| > 0
    ensures OnTheWay(p, q) <==> p[0] == q[0] && (|p| == 1 || OnTheWay(p[1..], q[1..]))
  {
    if |p| <= |q| {
      assert q[..|p|] == [q[0]] + q[1..][..|p| - 1] && p == [p[0]] + p[1..];
    }
  }

  lemma FindKidEarlier(kids: seq<Tree>, x: Tree, name: Name)
    requires FindKid(kids, name) < |kids|
    ensures FindKid(kids + [x], name) == FindKid(kids, name)
  {
    var a, b := FindKid(kids + [x], name), FindKid(kids, name);
    assert (kids + [x])[b] == kids[b];
    assert forall i :: 0 <= i < |kids| ==> (kids + [x])[i] == kids[i];
  }

  /** Changing the fields of the node at q, seen from any path p. */
  lemma {:induction false} PutInfoLookup(t: Tree, q: seq<Name>, x: Tree, p: seq<Name>)
    requires |Lookup(t, q)| == 1
    requires x.info.name == Lookup(t, q)[0].info.name && x.kids == Lookup(t, q)[0].kids
    ensures |Lookup(Put(t, q, x), p)| == |Lookup(t, p)|
    ensures |Lookup(t, p)| == 1 ==> Lookup(Put(t, q, x), p)[0].info == if p == q then x.info else Lookup(t, p)[0].info
    decreases |q|
  {
    if |q| > 0 && |p| > 0 {
      var k := FindKid(t.kids, q[0]);
      PutInfoLookup(t.kids[k], q[1..], x, p[1..]);
      PutKeepsName(t.kids[k], q[1..], x);
      FindKidUpdate(t.kids, k, Put(t.kids[k], q[1..], x), p[0]);
      assert p == q <==> p[0] == q[0] && p[1..] == q[1..];
    }
  }

  /** What an addition leaves at its own path: a new node with nothing but what it was added with, or the old one, which
      only becomes deleted, and then, when it is a file, is taken to lie where the deleted one lies. */
  lemma NodeAfterAddition(t: Tree, p: seq<Name>, a: Attrs)
    requires |p| > 0
    ensures var before, after := Lookup(t, p), Lookup(AddPath(t, p, a), p);
            && |after| == 1
            && after[0].info ==
               if |before| == 0 then
                 Info(p[|p| - 1], a.isDir, a.size, a.firstSector, a.numSectors, a.mtime, a.sectorSize, false, a.deleted,
                      false, false, false, false, [], 0)
               else
                 var i := before[0].info;
                 if i.deleted || !a.deleted then i
                 else if i.isDir then i.(deleted := true)
                 else i.(deleted := true, size := a.size, firstSector := a.firstSector, numSectors := a.numSectors,
                         mtime := a.mtime, sectorSize := a.sectorSize)
  {
    hide Lookup, AddPath, OnTheWay;
    AddPathLookup(t, p, a, p);
    OnItsOwnWay(p);
  }

  lemma OnItsOwnWay(p: seq<Name>)
    requires |p| > 0
    ensures OnTheWay(p, p)
  {
    assert p[..|p|] == p;
  }

  // ----- files marked for restore -----

  /** tree_count_marked: how many marked files lie below `t`, and their total size. */
  function Marked(t: Tree): (nat, nat)
    decreases t
  {
    MarkedAmong(t.kids)
  }

  function MarkedAmong(kids: seq<Tree>): (nat, nat)
    decreases kids
  {
    if |kids| == 0 then (0, 0)
    else
      var rest := MarkedAmong(kids[1..]);
      var first := if kids[0].info.isDir then Marked(kids[0])
                   else if kids[0].info.marked then (1, kids[0].info.size) else (0, 0);
      (first.0 + rest.0, first.1 + rest.1)
  }

  lemma {:induction false} MarkedAmongConcat(a: seq<Tree>, b: seq<Tree>)
    ensures MarkedAmong(a + b) == (MarkedAmong(a).0 + MarkedAmong(b).0, MarkedAmong(a).1 + MarkedAmong(b).1)
    decreases |a|
  {
    if |a| == 0 {
      assert a + b == b;
    } else {
      assert (a + b)[1..] == a[1..] + b;
      MarkedAmongConcat(a[1..], b);
    }
  }

  /** Going down by child numbers, through directories only, ks leads to a marked file. */
  predicate LeadsToMarked(kids: seq<Tree>, ks: seq<nat>)
    decreases |ks|
  {
    && |ks| > 0 && ks[0] < |kids|
    && var x := kids[ks[0]];
    if |ks| == 1 then !x.info.isDir && x.info.marked else x.info.isDir && LeadsToMarked(x.kids, ks[1..])
  }

  /** The size of that file. */
  function SizeAt(kids: seq<Tree>, ks: seq<nat>): nat
    requires LeadsToMarked(kids, ks)
    decreases |ks|
  {
    if |ks| == 1 then kids[ks[0]].info.size else SizeAt(kids[ks[0]].kids, ks[1..])
  }

  /** All different, each leading to a marked file that is a child of number `first` or more, or lies below one. */
  ghost predicate AllFrom(kids: seq<Tree>, first: nat, all: seq<seq<nat>>) {
    && (forall i, j :: 0 <= i < j < |all| ==> all[i] != all[j])
    && forall ks :: ks in all <==> LeadsToMarked(kids, ks) && ks[0] >= first
  }

  ghost function SizesOf(kids: seq<Tree>, all: seq<seq<nat>>): nat
    requires forall ks :: ks in all ==> LeadsToMarked(kids, ks)
  {
    if |all| == 0 then 0
    else
      assert all[0] in all && forall ks :: ks in all[1..] ==> ks in all;
      SizeAt(kids, all[0]) + SizesOf(kids, all[1..])
  }

  /** Every marked file is counted once, with its size. */
  lemma {:induction false} MarkedIsCount(kids: seq<Tree>, first: nat) returns (all: seq<seq<nat>>)
    requires first <= |kids|
    ensures AllFrom(kids, first, all) && MarkedAmong(kids[first..]) == (|all|, SizesOf(kids, all))
    decreases kids, |kids| - first
  {
    hide LeadsToMarked, SizeAt, SizesOf;
    if first == |kids| {
      all := [];
      NoneFrom(kids);
    } else {
      var rest := MarkedIsCount(kids, first + 1);
      var x := kids[first];
      assert kids[first..] == [x] + kids[first + 1..];
      var here: seq<seq<nat>> := [];
      if x.info.isDir {
        var below := MarkedIsCount(x.kids, 0);
        assert x.kids[0..] == x.kids;
        here := seq(|below|, i requires 0 <= i < |below| => [first] + below[i]);
        HereFromBelow(kids, first, below, here);
      } else if x.info.marked {
        here := [[first]];
        HereIsFile(kids, first);
      } else {
        HereIsNone(kids, first);
      }
      all := here + rest;
      HereAndLater(kids, first, here, rest);
    }
  }

  lemma NoneFrom(kids: seq<Tree>)
    ensures AllFrom(kids, |kids|, []) && SizesOf(kids, []) == 0 && MarkedAmong(kids[|kids|..]) == (0, 0)
  {
  }

  /** The same for the child of that number alone. */
  ghost predicate AllAt(kids: seq<Tree>, k: nat, all: seq<seq<nat>>) {
    && (forall i, j :: 0 <= i < j < |all| ==> all[i] != all[j])
    && forall ks :: ks in all <==> LeadsToMarked(kids, ks) && ks[0] == k
  }

  lemma HereIsNone(kids: seq<Tree>, k: nat)
    requires k < |kids| && !kids[k].info.isDir && !kids[k].info.marked
    ensures AllAt(kids, k, []) && SizesOf(kids, []) == 0
  {
  }

  lemma HereIsFile(kids: seq<Tree>, k: nat)
    requires k < |kids| && !kids[k].info.isDir && kids[k].info.marked
    ensures AllAt(kids, k, [[k]]) && SizesOf(kids, [[k]]) == kids[k].info.size
  {
    forall ks | LeadsToMarked(kids, ks) && ks[0] == k
      ensures ks in [[k]]
    {
      assert ks == [k];
    }
    assert [[k]][1..] == [];
  }

  lemma HereFromBelow(kids: seq<Tree>, k: nat, below: seq<seq<nat>>, here: seq<seq<nat>>)
    requires k < |kids| && kids[k].info.isDir && AllFrom(kids[k].kids, 0, below) && |here| == |below|
    requires forall i :: 0 <= i < |below| ==> here[i] == [k] + below[i]
    ensures AllAt(kids, k, here) && SizesOf(kids, here) == SizesOf(kids[k].kids, below)
  {
    forall i | 0 <= i < |here|
      ensures here[i][0] == k && here[i][1..] == below[i] && LeadsToMarked(kids, here[i])
    {
      assert below[i] in below;
    }
    forall ks | LeadsToMarked(kids, ks) && ks[0] == k
      ensures ks in here
    {
      assert ks[1..] in below;
      var i :| 0 <= i < |below| && below[i] == ks[1..];
      assert ks == here[i];
    }
    SameSizes(kids, k, below, here);
  }

  lemma {:induction false} SameSizes(kids: seq<Tree>, k: nat, below: seq<seq<nat>>, here: seq<seq<nat>>)
    requires k < |kids| && kids[k].info.isDir && |here| == |below|
    requires forall ks :: ks in below ==> LeadsToMarked(kids[k].kids, ks)
    requires forall ks :: ks in here ==> LeadsToMarked(kids, ks)
    requires forall i :: 0 <= i < |below| ==> here[i] == [k] + below[i]
    ensures SizesOf(kids, here) == SizesOf(kids[k].kids, below)
    decreases |below|
  {
    if |below| > 0 {
      assert below[0] in below && here[0] in here && here[0][1..] == below[0];
      SameSizes(kids, k, below[1..], here[1..]);
    }
  }

  lemma HereAndLater(kids: seq<Tree>, first: nat, here: seq<seq<nat>>, rest: seq<seq<nat>>)
    requires AllAt(kids, first, here) && AllFrom(kids, first + 1, rest)
    ensures AllFrom(kids, first, here + rest) && SizesOf(kids, here + rest) == SizesOf(kids, here) + SizesOf(kids, rest)
  {
    hide LeadsToMarked, SizesOf;
    var all := here + rest;
    forall i, j | 0 <= i < j < |all|
      ensures all[i] != all[j]
    {
      if i < |here| <= j {
        assert here[i] in here && rest[j - |here|] in rest;
      }
    }
    SizesConcat(kids, here, rest);
  }

  lemma {:induction false} SizesConcat(kids: seq<Tree>, a: seq<seq<nat>>, b: seq<seq<nat>>)
    requires forall ks :: ks in a || ks in b ==> LeadsToMarked(kids, ks)
    ensures SizesOf(kids, a + b) == SizesOf(kids, a) + SizesOf(kids, b)
    decreases |a|
  {
    hide LeadsToMarked, SizeAt;
    if |a| == 0 {
      assert a + b == b;
    } else {
      assert (a + b)[1..] == a[1..] + b;
      SizesConcat(kids, a[1..], b);
    }
  }
}

module Clipping {
  import opened Disks

  /** Names printed by tree_get_path. */
  const MAX_CHAIN: nat := 128

  /** What fits, with its terminating NUL, into `size` bytes. */
  function Clipped(s: seq<byte>, size: nat): (r: seq<byte>)
    requires size > 0
    ensures r <= s && |r| == if |s| < size then |s| else size - 1
  {
    if |s| < size then s else s[..size - 1]
  }
}

/** The linked form: what the loops of tree.c do to the nodes. */
module ScanTrees {
  import opened Clipping
  import opened Disks
  import opened PathTree

  /** file_node_t; links are indices of nodes, -1 is NULL. */
  datatype FileNode = FileNode(info: Info, parent: int, children: seq<nat>)

  type Nodes = seq<FileNode>

  /** Node i and its children agree about each other; children are allocated after their parent. */
  ghost predicate LinkedAt(nodes: Nodes, i: nat)
    requires i < |nodes|
  {
    && (forall k {:trigger nodes[i].children[k]} :: 0 <= k < |nodes[i].children| ==>
          i < nodes[i].children[k] < |nodes| && nodes[nodes[i].children[k]].parent == i)
    && (forall k, l :: 0 <= k < l < |nodes[i].children| ==> nodes[i].children[k] != nodes[i].children[l])
    && (if i == 0 then nodes[i].parent == -1 else 0 <= nodes[i].parent < i && i in nodes[nodes[i].parent].children)
  }

  ghost predicate Linked(nodes: Nodes) {
    |nodes| > 0 && forall i :: 0 <= i < |nodes| ==> LinkedAt(nodes, i)
  }

  /** The tree hanging from node i. */
  ghost function Abs(nodes: Nodes, i: nat): Tree
    requires Linked(nodes) && i < |nodes|
    decreases |nodes| - i
  {
    assert LinkedAt(nodes, i);
    Tree(nodes[i].info, seq(|nodes[i].children|,
                            k requires 0 <= k < |nodes[i].children| => Abs(nodes, nodes[i].children[k])))
  }

  /** tree_find_child: position in the child list, its length when there is none. */
  function FindChild(nodes: Nodes, children: seq<nat>, name: Name): (r: nat)
    requires forall k :: 0 <= k < |children| ==> children[k] < |nodes|
    ensures r <= |children|
    ensures r < |children| ==> nodes[children[r]].info.name == name
    ensures forall k :: 0 <= k < r ==> nodes[children[k]].info.name != name
  {
    if |children| == 0 || nodes[children[0]].info.name == name then 0 else 1 + FindChild(nodes, children[1..], name)
  }

  /** Two searches that stop at the first match stop at the same place. */
  lemma FindChildIsFindKid(nodes: Nodes, i: nat, name: Name)
    requires Linked(nodes) && i < |nodes|
    ensures LinkedAt(nodes, i)
    ensures FindChild(nodes, nodes[i].children, name) == FindKid(Abs(nodes, i).kids, name)
  {
    assert LinkedAt(nodes, i);
    var kids := Abs(nodes, i).kids;
    var c, k := FindChild(nodes, nodes[i].children, name), FindKid(kids, name);
    forall j | 0 <= j < |kids|
      ensures kids[j].info == nodes[nodes[i].children[j]].info
    {
      assert kids[j] == Abs(nodes, nodes[i].children[j]);
    }
  }

  /** nodes with a fresh node appended as the last child of `cur`. */
  function WithChild(nodes: Nodes, cur: nat, info: Info): Nodes
    requires cur < |nodes|
  {
    nodes[cur := nodes[cur].(children := nodes[cur].children + [|nodes|])] + [FileNode(info, cur, [])]
  }

  function AddNodes(nodes: Nodes, cur: nat, path: seq<Name>, a: Attrs): (r: (Nodes, nat))
    requires Linked(nodes) && cur < |nodes|
    ensures Linked(r.0) && r.1 < |r.0| && |r.0| >= |nodes|
    decreases |path|
  {
    if |path| == 0 then (nodes, cur)
    else
      assert LinkedAt(nodes, cur);
      var k := FindChild(nodes, nodes[cur].children, path[0]);
      if |path| == 1 then
        if k < |nodes[cur].children| then
          var id := nodes[cur].children[k];
          InfoKeepsLinks(nodes, id, Touched(nodes[id].info, a));
          (nodes[id := nodes[id].(info := Touched(nodes[id].info, a))], id)
        else
          WithChildLinked(nodes, cur, NewInfo(path[0], a));
          (WithChild(nodes, cur, NewInfo(path[0], a)), |nodes|)
      else
        if k < |nodes[cur].children| then AddNodes(nodes, nodes[cur].children[k], path[1..], a)
        else
          WithChildLinked(nodes, cur, NewInfo(path[0], DirAttrs));
          AddNodes(WithChild(nodes, cur, NewInfo(path[0], DirAttrs)), |nodes|, path[1..], a)
  }

  lemma InfoKeepsLinks(nodes: Nodes, id: nat, info: Info)
    requires Linked(nodes) && id < |nodes|
    ensures Linked(nodes[id := nodes[id].(info := info)])
  {
    var after := nodes[id := nodes[id].(info := info)];
    forall i | 0 <= i < |after|
      ensures LinkedAt(after, i)
    {
      assert LinkedAt(nodes, i);
    }
  }

  lemma WithChildLinked(nodes: Nodes, cur: nat, info: Info)
    requires Linked(nodes) && cur < |nodes|
    ensures Linked(WithChild(nodes, cur, info))
  {
    var after := WithChild(nodes, cur, info);
    forall i | 0 <= i < |after|
      ensures LinkedAt(after, i)
    {
      if i < |nodes| {
        assert LinkedAt(nodes, i);
      }
    }
  }

  // ----- framing: a change below one child does not show below another -----

  /** x is j or one of its ancestors. */
  ghost predicate InSubtree(nodes: Nodes, x: nat, j: nat)
    requires Linked(nodes) && j < |nodes|
    decreases j
  {
    x == j || (j > 0 && (assert LinkedAt(nodes, j); InSubtree(nodes, x, nodes[j].parent)))
  }

  lemma {:induction false} SubtreeBelow(nodes: Nodes, x: nat, j: nat)
    requires Linked(nodes) && j < |nodes| && InSubtree(nodes, x, j)
    ensures x <= j
    decreases j
  {
    if x != j {
      assert LinkedAt(nodes, j);
      SubtreeBelow(nodes, x, nodes[j].parent);
    }
  }

  lemma {:induction false} SubtreeOfParent(nodes: Nodes, x: nat, j: nat)
    requires Linked(nodes) && 0 < x < |nodes| && j < |nodes| && InSubtree(nodes, x, j)
    ensures LinkedAt(nodes, x) && InSubtree(nodes, nodes[x].parent, j)
    decreases j
  {
    assert LinkedAt(nodes, x) && LinkedAt(nodes, j);
    if x != j {
      SubtreeOfParent(nodes, x, nodes[j].parent);
    }
  }

  /** Two children of the same node have no descendant in common. */
  lemma {:induction false} SiblingsApart(nodes: Nodes, c: nat, d: nat, j: nat)
    requires Linked(nodes) && 0 < c < |nodes| && 0 < d < |nodes| && c != d && j < |nodes|
    requires nodes[c].parent == nodes[d].parent
    ensures !(InSubtree(nodes, c, j) && InSubtree(nodes, d, j))
    decreases j
  {
    assert LinkedAt(nodes, c) && LinkedAt(nodes, d) && LinkedAt(nodes, j);
    if j > 0 {
      var p: nat := nodes[j].parent;
      SiblingsApart(nodes, c, d, p);
      if j == c && InSubtree(nodes, d, p) {
        SubtreeBelow(nodes, d, p);
      }
      if j == d && InSubtree(nodes, c, p) {
        SubtreeBelow(nodes, c, p);
      }
    }
  }

  /** Every old node that changed lies below `c`. */
  ghost predicate ChangedOnlyBelow(nodes: Nodes, after: Nodes, c: nat)
    requires Linked(nodes)
  {
    |after| >= |nodes| && forall j :: 0 <= j < |nodes| && after[j] != nodes[j] ==> InSubtree(nodes, c, j)
  }

  lemma {:induction false} AbsFrame(nodes: Nodes, after: Nodes, d: nat)
    requires Linked(nodes) && Linked(after) && d < |nodes| <= |after|
    requires forall j :: 0 <= j < |nodes| && InSubtree(nodes, d, j) ==> after[j] == nodes[j]
    ensures Abs(after, d) == Abs(nodes, d)
    decreases |nodes| - d
  {
    assert InSubtree(nodes, d, d) && LinkedAt(nodes, d) && LinkedAt(after, d);
    var ch := nodes[d].children;
    forall k | 0 <= k < |ch|
      ensures Abs(after, ch[k]) == Abs(nodes, ch[k])
    {
      forall j | 0 <= j < |nodes| && InSubtree(nodes, ch[k], j)
        ensures after[j] == nodes[j]
      {
        SubtreeOfParent(nodes, ch[k], j);
      }
      AbsFrame(nodes, after, ch[k]);
    }
  }

  lemma {:induction false} AddNodesChanges(nodes: Nodes, cur: nat, path: seq<Name>, a: Attrs)
    requires Linked(nodes) && cur < |nodes|
    ensures ChangedOnlyBelow(nodes, AddNodes(nodes, cur, path, a).0, cur)
    decreases |path|
  {
    if |path| > 0 {
      assert LinkedAt(nodes, cur);
      var k := FindChild(nodes, nodes[cur].children, path[0]);
      var after := AddNodes(nodes, cur, path, a).0;
      if k < |nodes[cur].children| {
        var c := nodes[cur].children[k];
        assert LinkedAt(nodes, c);
        if |path| > 1 {
          AddNodesChanges(nodes, c, path[1..], a);
          forall j | 0 <= j < |nodes| && after[j] != nodes[j]
            ensures InSubtree(nodes, cur, j)
          {
            SubtreeOfParent(nodes, c, j);
          }
        } else {
          assert InSubtree(nodes, cur, c);
        }
      } else if |path| > 1 {
        var mid := WithChild(nodes, cur, NewInfo(path[0], DirAttrs));
        WithChildLinked(nodes, cur, NewInfo(path[0], DirAttrs));
        AddNodesChanges(mid, |nodes|, path[1..], a);
        forall j | 0 <= j < |nodes| && after[j] != nodes[j]
          ensures InSubtree(nodes, cur, j)
        {
          if j != cur {
            assert after[j] != mid[j];
            SubtreeBelow(mid, |nodes|, j);
          }
        }
      }
    }
  }

  /** On the tree, the walk of tree_add_path is AddPath. */
  lemma {:induction false} AddNodesIsAddPath(nodes: Nodes, cur: nat, path: seq<Name>, a: Attrs)
    requires Linked(nodes) && cur < |nodes|
    ensures Abs(AddNodes(nodes, cur, path, a).0, cur) == AddPath(Abs(nodes, cur), path, a)
    decreases |path|
  {
    if |path| > 0 {
      assert LinkedAt(nodes, cur);
      FindChildIsFindKid(nodes, cur, path[0]);
      var k := FindChild(nodes, nodes[cur].children, path[0]);
      if k < |nodes[cur].children| {
        AddBelowChild(nodes, cur, k, path, a);
      } else {
        AddNewChild(nodes, cur, path, a);
      }
    }
  }

  lemma AddBelowChild(nodes: Nodes, cur: nat, k: nat, path: seq<Name>, a: Attrs)
    requires Linked(nodes) && cur < |nodes| && |path| > 0 && k < |nodes[cur].children|
    requires LinkedAt(nodes, cur) && k == FindChild(nodes, nodes[cur].children, path[0])
    requires k == FindKid(Abs(nodes, cur).kids, path[0])
    ensures Abs(AddNodes(nodes, cur, path, a).0, cur) == AddPath(Abs(nodes, cur), path, a)
    decreases |path|, 0
  {
    hide AddPath, AddNodes, FindKid, FindChild, Touched;
    var ch := nodes[cur].children;
    var c := ch[k];
    var after := AddNodes(nodes, cur, path, a).0;
    var t, u := Abs(nodes, cur), Abs(after, cur);
    BelowChildParts(nodes, cur, k, path, a);
    assert LinkedAt(nodes, c);
    if |path| > 1 {
      AddNodesChanges(nodes, c, path[1..], a);
      AddNodesIsAddPath(nodes, c, path[1..], a);
    } else {
      assert InSubtree(nodes, c, c);
      InfoOnly(nodes, c, Touched(nodes[c].info, a));
    }
    assert ChangedOnlyBelow(nodes, after, c);
    if after[cur] != nodes[cur] {
      SubtreeBelow(nodes, c, cur);
    }
    assert after[cur] == nodes[cur];
    forall i | 0 <= i < |ch|
      ensures i != k ==> u.kids[i] == t.kids[i]
    {
      if i != k {
        OtherChildKept(nodes, after, c, ch[i]);
      }
    }
    assert u.kids == AddPath(t, path, a).kids;
  }

  /** The two sides of AddBelowChild, one name further. */
  lemma BelowChildParts(nodes: Nodes, cur: nat, k: nat, path: seq<Name>, a: Attrs)
    requires Linked(nodes) && cur < |nodes| && |path| > 0 && k < |nodes[cur].children|
    requires LinkedAt(nodes, cur) && k == FindChild(nodes, nodes[cur].children, path[0])
    requires k == FindKid(Abs(nodes, cur).kids, path[0])
    ensures var c := nodes[cur].children[k];
            var t := Abs(nodes, cur);
            && AddNodes(nodes, cur, path, a).0
               == (if |path| == 1 then nodes[c := nodes[c].(info := Touched(nodes[c].info, a))]
                   else AddNodes(nodes, c, path[1..], a).0)
            && AddPath(t, path, a)
               == t.(kids := t.kids[k := if |path|
                                    == 1 then t.kids[k].(info := Touched(t.kids[k].info, a))
                                      else AddPath(t.kids[k], path[1..], a)])
  {
    hide Touched;
  }

  lemma OtherChildKept(nodes: Nodes, after: Nodes, c: nat, d: nat)
    requires Linked(nodes) && Linked(after) && ChangedOnlyBelow(nodes, after, c)
    requires 0 < c < |nodes| && 0 < d < |nodes| && c != d && nodes[c].parent == nodes[d].parent
    ensures Abs(after, d) == Abs(nodes, d)
  {
    forall j | 0 <= j < |nodes| && InSubtree(nodes, d, j)
      ensures after[j] == nodes[j]
    {
      SiblingsApart(nodes, c, d, j);
    }
    AbsFrame(nodes, after, d);
  }

  lemma InfoOnly(nodes: Nodes, c: nat, info: Info)
    requires Linked(nodes) && c < |nodes|
    ensures Linked(nodes[c := nodes[c].(info := info)])
    ensures Abs(nodes[c := nodes[c].(info := info)], c) == Abs(nodes, c).(info := info)
  {
    InfoKeepsLinks(nodes, c, info);
    var after := nodes[c := nodes[c].(info := info)];
    assert LinkedAt(nodes, c) && LinkedAt(after, c);
    var ch := nodes[c].children;
    forall k | 0 <= k < |ch|
      ensures Abs(after, ch[k]) == Abs(nodes, ch[k])
    {
      forall j | 0 <= j < |nodes| && InSubtree(nodes, ch[k], j)
        ensures after[j] == nodes[j]
      {
        SubtreeBelow(nodes, ch[k], j);
      }
      AbsFrame(nodes, after, ch[k]);
    }
    assert Abs(after, c).kids == Abs(nodes, c).kids;
  }

  lemma AddNewChild(nodes: Nodes, cur: nat, path: seq<Name>, a: Attrs)
    requires Linked(nodes) && cur < |nodes| && |path| > 0
    requires LinkedAt(nodes, cur) && FindChild(nodes, nodes[cur].children, path[0]) == |nodes[cur].children|
    requires FindKid(Abs(nodes, cur).kids, path[0]) == |Abs(nodes, cur).kids|
    ensures Abs(AddNodes(nodes, cur, path, a).0, cur) == AddPath(Abs(nodes, cur), path, a)
    decreases |path|, 0
  {
    hide AddPath, AddNodes, FindKid, FindChild, NewInfo;
    var ch, n := nodes[cur].children, |nodes|;
    var info := NewInfo(path[0], if |path| == 1 then a else DirAttrs);
    var mid := WithChild(nodes, cur, info);
    WithChildLinked(nodes, cur, info);
    assert LinkedAt(mid, n) && LinkedAt(mid, cur);
    assert Abs(mid, n) == Tree(info, []);
    var after := AddNodes(nodes, cur, path, a).0;
    NewChildParts(nodes, cur, path, a);
    if |path| > 1 {
      AddNodesChanges(mid, n, path[1..], a);
      AddNodesIsAddPath(mid, n, path[1..], a);
    }
    assert ChangedOnlyBelow(mid, after, n);
    if after[cur] != mid[cur] {
      SubtreeBelow(mid, n, cur);
    }
    assert after[cur] == mid[cur];
    var t, u := Abs(nodes, cur), Abs(after, cur);
    forall i | 0 <= i < |ch|
      ensures u.kids[i] == t.kids[i]
    {
      OldChildKept(nodes, cur, mid, ch[i]);
      OtherChildKept(mid, after, n, ch[i]);
    }
    assert u.kids == AddPath(t, path, a).kids;
  }

  /** The two sides of AddNewChild, one name further. */
  lemma NewChildParts(nodes: Nodes, cur: nat, path: seq<Name>, a: Attrs)
    requires Linked(nodes) && cur < |nodes| && |path| > 0
    requires LinkedAt(nodes, cur) && FindChild(nodes, nodes[cur].children, path[0]) == |nodes[cur].children|
    requires FindKid(Abs(nodes, cur).kids, path[0]) == |Abs(nodes, cur).kids|
    ensures var info := NewInfo(path[0], if |path| == 1 then a else DirAttrs);
            var mid := WithChild(nodes, cur, info);
            var t, leaf := Abs(nodes, cur), Tree(info, []);
            && Linked(mid)
            && AddNodes(nodes, cur, path, a)
                == (if |path| == 1 then (mid, |nodes|) else AddNodes(mid, |nodes|, path[1..], a))
            && AddPath(t, path, a) == t.(kids := t.kids + [if |path| == 1 then leaf else AddPath(leaf, path[1..], a)])
  {
    hide Abs;
    WithChildLinked(nodes, cur, NewInfo(path[0], if |path| == 1 then a else DirAttrs));
  }

  lemma OldChildKept(nodes: Nodes, cur: nat, mid: Nodes, d: nat)
    requires Linked(nodes) && Linked(mid) && cur < d < |nodes| <= |mid|
    requires forall j :: 0 <= j < |nodes| && j != cur ==> mid[j] == nodes[j]
    ensures Abs(mid, d) == Abs(nodes, d)
  {
    forall j | 0 <= j < |nodes| && InSubtree(nodes, d, j)
      ensures mid[j] == nodes[j]
    {
      SubtreeBelow(nodes, d, j);
    }
    AbsFrame(nodes, mid, d);
  }

  // ----- looking paths up -----

  /** tree_find_path from node `cur`: the node a path leads to, -1 when there is none. */
  function Resolve(nodes: Nodes, cur: nat, path: seq<Name>): (r: int)
    requires Linked(nodes) && cur < |nodes|
    ensures -1 <= r < |nodes|
    decreases |path|
  {
    if |path| == 0 then cur
    else
      assert LinkedAt(nodes, cur);
      var k := FindChild(nodes, nodes[cur].children, path[0]);
      if k < |nodes[cur].children| then Resolve(nodes, nodes[cur].children[k], path[1..]) else -1
  }

  lemma {:induction false} ResolveIsLookup(nodes: Nodes, cur: nat, path: seq<Name>)
    requires Linked(nodes) && cur < |nodes|
    ensures var r := Resolve(nodes, cur, path);
            Lookup(Abs(nodes, cur), path) == if r < 0 then [] else [Abs(nodes, r)]
    decreases |path|
  {
    if |path| > 0 {
      FindChildIsFindKid(nodes, cur, path[0]);
      var k := FindChild(nodes, nodes[cur].children, path[0]);
      if k < |nodes[cur].children| {
        ResolveIsLookup(nodes, nodes[cur].children[k], path[1..]);
      }
    }
  }

  /** tree_find_path finds what tree_add_path returned. */
  lemma {:induction false} AddedIsResolved(nodes: Nodes, cur: nat, path: seq<Name>, a: Attrs)
    requires Linked(nodes) && cur < |nodes|
    ensures var r := AddNodes(nodes, cur, path, a); Resolve(r.0, cur, path) == r.1
    decreases |path|
  {
    hide Touched, Resolve, FindChild, Extends;
    ResolveNothing(nodes, cur);
    if |path| > 0 {
      var after := AddNodes(nodes, cur, path, a).0;
      assert LinkedAt(nodes, cur);
      var ch := nodes[cur].children;
      var k := FindChild(nodes, ch, path[0]);
      AddNodesExtends(nodes, cur, path, a);
      ResolveStep(after, cur, path);
      if k < |ch| {
        FindChildKept(nodes, after, cur, path[0]);
        FirstChildrenKept(nodes, after, cur);
        if |path| > 1 {
          AddedIsResolved(nodes, ch[k], path[1..], a);
        } else {
          ResolveNothing(after, ch[k]);
        }
      } else {
        var mid := WithChild(nodes, cur, NewInfo(path[0], if |path| == 1 then a else DirAttrs));
        WithChildLinked(nodes, cur, NewInfo(path[0], if |path| == 1 then a else DirAttrs));
        FindNewChild(nodes, mid, cur, path[0]);
        if |path| > 1 {
          AddNodesExtends(mid, |nodes|, path[1..], a);
          FindChildKept(mid, after, cur, path[0]);
          FirstChildrenKept(mid, after, cur);
          AddedIsResolved(mid, |nodes|, path[1..], a);
        } else {
          ResolveNothing(after, |nodes|);
        }
      }
    }
  }

  lemma ResolveNothing(nodes: Nodes, cur: nat)
    requires Linked(nodes) && cur < |nodes|
    ensures forall path: seq<Name> :: |path| == 0 ==> Resolve(nodes, cur, path) == cur
  {
  }

  lemma ResolveStep(nodes: Nodes, cur: nat, path: seq<Name>)
    requires Linked(nodes) && cur < |nodes| && |path| > 0
    ensures LinkedAt(nodes, cur)
    ensures var k := FindChild(nodes, nodes[cur].children, path[0]);
            Resolve(nodes, cur, path)
              == if k < |nodes[cur].children| then Resolve(nodes, nodes[cur].children[k], path[1..]) else -1
  {
    assert LinkedAt(nodes, cur);
  }

  lemma FirstChildrenKept(nodes: Nodes, after: Nodes, cur: nat)
    requires Extends(nodes, after) && cur < |nodes|
    ensures |nodes| <= |after| && nodes[cur].children <= after[cur].children
  {
    assert ExtendsAt(nodes, after, cur);
  }

  /** What no tree operation undoes about node j: its name, type, parent, earlier children, and being deleted. */
  ghost predicate ExtendsAt(nodes: Nodes, after: Nodes, j: nat)
    requires j < |nodes| <= |after|
  {
    && after[j].info.name == nodes[j].info.name && after[j].info.isDir == nodes[j].info.isDir
    && after[j].parent == nodes[j].parent
    && nodes[j].children <= after[j].children
    && (nodes[j].info.deleted ==> after[j].info.deleted)
  }

  ghost predicate Extends(nodes: Nodes, after: Nodes) {
    |nodes| <= |after| && forall j :: 0 <= j < |nodes| ==> ExtendsAt(nodes, after, j)
  }

  lemma {:induction false} AddNodesExtends(nodes: Nodes, cur: nat, path: seq<Name>, a: Attrs)
    requires Linked(nodes) && cur < |nodes|
    ensures Extends(nodes, AddNodes(nodes, cur, path, a).0)
    decreases |path|
  {
    if |path| > 0 {
      assert LinkedAt(nodes, cur);
      var k := FindChild(nodes, nodes[cur].children, path[0]);
      if |path| > 1 {
        if k < |nodes[cur].children| {
          AddNodesExtends(nodes, nodes[cur].children[k], path[1..], a);
        } else {
          var mid := WithChild(nodes, cur, NewInfo(path[0], DirAttrs));
          WithChildLinked(nodes, cur, NewInfo(path[0], DirAttrs));
          AddNodesExtends(mid, |nodes|, path[1..], a);
          var after := AddNodes(nodes, cur, path, a).0;
          forall j | 0 <= j < |nodes|
            ensures ExtendsAt(nodes, after, j)
          {
            assert ExtendsAt(nodes, mid, j) && ExtendsAt(mid, after, j);
          }
        }
      }
    }
  }

  lemma FindChildKept(nodes: Nodes, after: Nodes, cur: nat, name: Name)
    requires Linked(nodes) && Linked(after) && Extends(nodes, after) && cur < |nodes|
    ensures LinkedAt(nodes, cur) && LinkedAt(after, cur)
    ensures FindChild(nodes, nodes[cur].children, name) < |nodes[cur].children|
            ==> FindChild(after, after[cur].children, name) == FindChild(nodes, nodes[cur].children, name)
  {
    assert LinkedAt(nodes, cur) && LinkedAt(after, cur);
    var ch, ch' := nodes[cur].children, after[cur].children;
    assert ExtendsAt(nodes, after, cur);
    var k, k' := FindChild(nodes, ch, name), FindChild(after, ch', name);
    if k < |ch| {
      forall i | 0 <= i < |ch|
        ensures ch'[i] == ch[i] && after[ch[i]].info.name == nodes[ch[i]].info.name
      {
        assert ExtendsAt(nodes, after, ch[i]);
      }
      assert ch'[k] == ch[k] && after[ch'[k]].info.name == name;
      assert k' <= k;
      assert nodes[ch[k']].info.name == name;
    }
  }

  lemma FindNewChild(nodes: Nodes, mid: Nodes, cur: nat, name: Name)
    requires Linked(nodes) && Linked(mid) && cur < |nodes| && |mid| == |nodes| + 1
    requires LinkedAt(nodes, cur)
    requires FindChild(nodes, nodes[cur].children, name) == |nodes[cur].children|
    requires mid[cur].children == nodes[cur].children + [|nodes|] && mid[|nodes|].info.name == name
    requires forall j :: 0 <= j < |nodes| ==> mid[j].info == nodes[j].info
    ensures LinkedAt(mid, cur)
    ensures FindChild(mid, mid[cur].children, name) == |nodes[cur].children|
  {
    assert LinkedAt(mid, cur);
    var ch, ch' := nodes[cur].children, mid[cur].children;
    assert ch'[|ch|] == |nodes|;
    forall i | 0 <= i < |ch|
      ensures mid[ch'[i]].info.name != name
    {
      assert ch'[i] == ch[i] && mid[ch[i]].info == nodes[ch[i]].info;
    }
  }

  /** A path that leads to a node keeps leading to that node, whatever is added later. */
  lemma {:induction false} ResolveKept(nodes: Nodes, after: Nodes, cur: nat, path: seq<Name>)
    requires Linked(nodes) && Linked(after) && Extends(nodes, after) && cur < |nodes|
    ensures Resolve(nodes, cur, path) >= 0 ==> Resolve(after, cur, path) == Resolve(nodes, cur, path)
    decreases |path|
  {
    if |path| > 0 {
      assert LinkedAt(nodes, cur) && LinkedAt(after, cur) && ExtendsAt(nodes, after, cur);
      FindChildKept(nodes, after, cur, path[0]);
      var k := FindChild(nodes, nodes[cur].children, path[0]);
      if k < |nodes[cur].children| {
        ResolveKept(nodes, after, nodes[cur].children[k], path[1..]);
      }
    }
  }

  /** Overwriting the fields of the node a path leads to. */
  lemma {:induction false} SetInfoIsPut(nodes: Nodes, cur: nat, path: seq<Name>, info: Info)
    requires Linked(nodes) && cur < |nodes| && Resolve(nodes, cur, path) >= 0
    ensures var id := Resolve(nodes, cur, path);
            var after := nodes[id := nodes[id].(info := info)];
            && Linked(after) && InSubtree(nodes, cur, id)
            && Abs(after, cur) == Put(Abs(nodes, cur), path, Abs(nodes, id).(info := info))
    decreases |path|
  {
    var id := Resolve(nodes, cur, path);
    var after := nodes[id := nodes[id].(info := info)];
    InfoOnly(nodes, id, info);
    if |path| > 0 {
      FindChildIsFindKid(nodes, cur, path[0]);
      var ch := nodes[cur].children;
      var k := FindChild(nodes, ch, path[0]);
      var c := ch[k];
      assert LinkedAt(nodes, c);
      SetInfoIsPut(nodes, c, path[1..], info);
      SubtreeOfParent(nodes, c, id);
      SubtreeBelow(nodes, c, id);
      assert LinkedAt(after, cur) && after[cur] == nodes[cur];
      var t, u := Abs(nodes, cur), Abs(after, cur);
      assert ChangedOnlyBelow(nodes, after, c);
      forall i | 0 <= i < |ch|
        ensures i != k ==> u.kids[i] == t.kids[i]
      {
        if i != k {
          OtherChildKept(nodes, after, c, ch[i]);
        }
      }
      assert u.kids == t.kids[k := Abs(after, c)];
    }
  }

  // ----- the path of a node -----

  /** The names on the way down to `id` from below `root` (-1 is NULL), at most `max` of them. */
  ghost function Ancestry(nodes: Nodes, id: int, root: int, max: nat): (names: seq<Name>)
    requires Linked(nodes) && -1 <= id < |nodes|
    ensures |names| <= max
    decreases max
  {
    if max == 0 || id < 0 || id == root then []
    else
      assert LinkedAt(nodes, id);
      Ancestry(nodes, nodes[id].parent, root, max - 1) + [nodes[id].info.name]
  }

  lemma AncestryStep(nodes: Nodes, id: nat, root: int, max: nat)
    requires Linked(nodes) && id < |nodes| && max > 0 && id != root
    ensures LinkedAt(nodes, id)
    ensures Ancestry(nodes, id, root, max) == Ancestry(nodes, nodes[id].parent, root, max - 1) + [nodes[id].info.name]
  {
    assert LinkedAt(nodes, id);
  }

  lemma AncestryEnds(nodes: Nodes, id: int, root: int, max: nat)
    requires Linked(nodes) && -1 <= id < |nodes| && (max == 0 || id < 0 || id == root)
    ensures Ancestry(nodes, id, root, max) == []
  {
  }

  lemma SplitPath(a: seq<Name>, b: seq<Name>, c: seq<Name>)
    ensures a + b + c == a + (b + c)
  {
  }

  /** A call of tree_add_path. */
  datatype Addition = Addition(path: seq<byte>, attrs: Attrs)

  function AddedAll(t: Tree, adds: seq<Addition>): Tree {
    if |adds| == 0 then t
    else AddPath(AddedAll(t, adds[..|adds| - 1]), Tokens(adds[|adds| - 1].path), adds[|adds| - 1].attrs)
  }

  lemma AddedAllNext(t: Tree, adds: seq<Addition>, i: nat)
    requires i < |adds|
    ensures AddedAll(t, adds[..i + 1]) == AddPath(AddedAll(t, adds[..i]), Tokens(adds[i].path), adds[i].attrs)
    ensures adds[..|adds|] == adds
  {
    assert adds[..i + 1][..i] == adds[..i];
  }

  lemma ExtendsTransitive(a: Nodes, b: Nodes, c: Nodes)
    requires Extends(a, b) && Extends(b, c)
    ensures Extends(a, c)
  {
    forall j | 0 <= j < |a|
      ensures ExtendsAt(a, c, j)
    {
      assert ExtendsAt(a, b, j) && ExtendsAt(b, c, j);
    }
  }

  /** The node an addition returns is deleted if the addition says so, unless it is the root. */
  lemma DeletedWhenAdded(nodes: Nodes, after: Nodes, tokens: seq<Name>, a: Attrs)
    requires Linked(nodes) && Linked(after) && |tokens| > 0 && a.deleted
    requires Abs(after, 0) == AddPath(Abs(nodes, 0), tokens, a)
    ensures Resolve(after, 0, tokens) >= 0 && after[Resolve(after, 0, tokens)].info.deleted
  {
    hide Linked, Abs, Resolve, AddPath, Lookup;
    LinkedNonEmpty(nodes);
    LinkedNonEmpty(after);
    AddPathLookup(Abs(nodes, 0), tokens, a, tokens);
    ResolveIsLookup(after, 0, tokens);
    assert OnTheWay(tokens, tokens);
    var r := Resolve(after, 0, tokens);
    if r >= 0 {
      AbsInfo(after, r);
    }
  }

  /** ids are the nodes that the additions returned, each found under its path, and deleted if one of its additions
      said so. */
  ghost predicate Kept(nodes: Nodes, adds: seq<Addition>, ids: seq<nat>)
    requires Linked(nodes)
  {
    |ids| == |adds| && forall i :: 0 <= i < |ids| ==> KeptAt(nodes, adds[i], ids[i])
  }

  ghost predicate KeptAt(nodes: Nodes, add: Addition, id: nat)
    requires Linked(nodes)
  {
    LinkedNonEmpty(nodes);
    && id < |nodes| && Resolve(nodes, 0, Tokens(add.path)) == id
    && (add.attrs.deleted && |Tokens(add.path)| > 0 ==> nodes[id].info.deleted)
  }

  lemma NothingKept(nodes: Nodes)
    requires Linked(nodes)
    ensures Kept(nodes, [], []) && Extends(nodes, nodes)
  {
  }

  lemma OneMoreKept(nodes: Nodes, adds: seq<Addition>, i: nat, ids: seq<nat>, id: nat)
    requires Linked(nodes) && i < |adds| && Kept(nodes, adds[..i], ids) && KeptAt(nodes, adds[i], id)
    ensures Kept(nodes, adds[..i + 1], ids + [id])
  {
    hide Linked, KeptAt;
    var more := ids + [id];
    forall k | 0 <= k < |more|
      ensures KeptAt(nodes, adds[..i + 1][k], more[k])
    {
      assert k < i ==> adds[..i + 1][k] == adds[..i][k];
    }
  }

  lemma StillKept(nodes: Nodes, after: Nodes, adds: seq<Addition>, ids: seq<nat>)
    requires Linked(nodes) && Linked(after) && Extends(nodes, after) && Kept(nodes, adds, ids)
    ensures Kept(after, adds, ids)
  {
    hide Linked, Resolve, Tokens;
    LinkedNonEmpty(nodes);
    forall i | 0 <= i < |ids|
      ensures KeptAt(after, adds[i], ids[i])
    {
      assert KeptAt(nodes, adds[i], ids[i]);
      ResolveKept(nodes, after, 0, Tokens(adds[i].path));
      assert ExtendsAt(nodes, after, ids[i]);
    }
  }

  class ScanTree {
    var nodes: Nodes
    var totalFiles: nat
    var totalDirs: nat
    var totalSize: nat

    ghost predicate Valid()
      reads this
    {
      && Linked(nodes) && nodes[0].info.isDir
      && WellNamed(Abs(nodes, 0))
      && totalFiles == CountFiles(Abs(nodes, 0))
    }

    ghost function Root(): Tree
      requires Valid()
      reads this
    {
      Abs(nodes, 0)
    }

    /** tree_new */
    constructor ()
      ensures Valid() && Root() == Tree(NewInfo([SLASH], DirAttrs), [])
      ensures totalFiles == totalDirs == totalSize == 0
    {
      nodes := [FileNode(NewInfo([SLASH], DirAttrs), -1, [])];
      totalFiles, totalDirs, totalSize := 0, 0, 0;
      new;
      assert LinkedAt(nodes, 0);
    }

    /** node_ensure_dir */
    method NodeEnsureDir(parent: nat, name: Name) returns (id: nat)
      requires Linked(nodes) && parent < |nodes|
      modifies this`nodes
      ensures LinkedAt(old(nodes), parent) && Linked(nodes)
      ensures var ch := old(nodes)[parent].children;
              var k := FindChild(old(nodes), ch, name);
              if k < |ch| then nodes == old(nodes) && id == ch[k]
              else nodes == WithChild(old(nodes), parent, NewInfo(name, DirAttrs)) && id == |old(nodes)|
    {
      assert LinkedAt(nodes, parent);
      var k := FindChild(nodes, nodes[parent].children, name);
      if k < |nodes[parent].children| {
        return nodes[parent].children[k];
      }
      WithChildLinked(nodes, parent, NewInfo(name, DirAttrs));
      id := |nodes|;
      nodes := WithChild(nodes, parent, NewInfo(name, DirAttrs));
    }

    /** tree_add_path */
    method TreeAddPath(path: seq<byte>, a: Attrs) returns (id: nat)
      requires Valid() && 0 !in path
      modifies this
      ensures Valid() && id < |nodes|
      ensures Root() == AddPath(old(Root()), Tokens(path), a)
      ensures Resolve(nodes, 0, Tokens(path)) == id
      ensures Extends(old(nodes), nodes)
      ensures var isNew := old(Resolve(nodes, 0, Tokens(path))) < 0;
              && totalFiles == old(totalFiles) + (if isNew && !a.isDir then 1 else 0)
              && totalDirs == old(totalDirs) + (if isNew && a.isDir then 1 else 0)
              && totalSize == old(totalSize) + (if isNew && !a.isDir then a.size else 0)
    {
      hide Linked, WellNamed, Abs, AddPath, CountFiles, AddNodes, Resolve;
      var tokens := Tokens(path);
      AddFacts(nodes, tokens, a);
      if |tokens| == 0 {
        AddNothingFacts(nodes, tokens, a);
        return 0;
      }
      var current := EnsureDirs(tokens, a);
      id := AddLeaf(current, tokens[|tokens| - 1], a);
    }

    /** Any sequence of additions: every node returned is still found under its path, and no deletion is undone. */
    method AddPaths(adds: seq<Addition>) returns (ids: seq<nat>)
      requires Valid() && forall i :: 0 <= i < |adds| ==> 0 !in adds[i].path
      modifies this
      ensures Valid() && Root() == AddedAll(old(Root()), adds) && Extends(old(nodes), nodes) && Kept(nodes, adds, ids)
    {
      hide Linked, Abs, AddPath, CountFiles, AddNodes, Resolve, WellNamed, Extends, Kept, Tokens;
      ids := [];
      NothingKept(nodes);
      for i := 0 to |adds|
        invariant Valid() && Root() == AddedAll(old(Root()), adds[..i]) && Extends(old(nodes), nodes)
        invariant Kept(nodes, adds[..i], ids)
      {
        ghost var was := nodes;
        var id := TreeAddPath(adds[i].path, adds[i].attrs);
        AddedAllNext(old(Root()), adds, i);
        ExtendsTransitive(old(nodes), was, nodes);
        StillKept(was, nodes, adds[..i], ids);
        if |Tokens(adds[i].path)| > 0 && adds[i].attrs.deleted {
          DeletedWhenAdded(was, nodes, Tokens(adds[i].path), adds[i].attrs);
        }
        OneMoreKept(nodes, adds, i, ids, id);
        ids := ids + [id];
      }
      assert adds[..|adds|] == adds;
    }

    /** The loop of tree_add_path: the directories on the way to the last name. */
    method EnsureDirs(tokens: seq<Name>, ghost a: Attrs) returns (current: nat)
      requires Linked(nodes) && |tokens| > 0
      modifies this`nodes
      ensures Linked(nodes) && current < |nodes|
      ensures var last := [tokens[|tokens| - 1]];
              && AddNodes(nodes, current, last, a) == AddNodes(old(nodes), 0, tokens, a)
              && (Resolve(nodes, current, last) < 0 <==> Resolve(old(nodes), 0, tokens) < 0)
    {
      hide Linked, Abs;
      ghost var was := nodes;
      current := 0;
      var i := 0;
      LinkedNonEmpty(nodes);
      assert tokens[0..] == tokens;
      while i + 1 < |tokens|
        invariant 0 <= i < |tokens|
        invariant Linked(nodes) && current < |nodes|
        invariant AddNodes(nodes, current, tokens[i..], a) == AddNodes(was, 0, tokens, a)
        invariant Resolve(nodes, current, tokens[i..]) < 0 <==> Resolve(was, 0, tokens) < 0
      {
        ghost var before, parent := nodes, current;
        assert tokens[i..][1..] == tokens[i + 1..] && tokens[i..][0] == tokens[i];
        current := NodeEnsureDir(current, tokens[i]);
        NewDirIsEmpty(before, nodes, parent, current, tokens[i], tokens[i + 1..]);
        i := i + 1;
      }
      assert tokens[i..] == [tokens[i]];
    }

    /** The end of tree_add_path: update or append the node for the last name. */
    method AddLeaf(current: nat, lastName: Name, a: Attrs) returns (id: nat)
      requires Linked(nodes) && current < |nodes|
      modifies this
      ensures (nodes, id) == AddNodes(old(nodes), current, [lastName], a)
      ensures var isNew := old(Resolve(nodes, current, [lastName])) < 0;
              && totalFiles == old(totalFiles) + (if isNew && !a.isDir then 1 else 0)
              && totalDirs == old(totalDirs) + (if isNew && a.isDir then 1 else 0)
              && totalSize == old(totalSize) + (if isNew && !a.isDir then a.size else 0)
    {
      assert LinkedAt(nodes, current);
      var k := FindChild(nodes, nodes[current].children, lastName);
      if k < |nodes[current].children| {
        id := nodes[current].children[k];
        var existing := nodes[id].info;
        if !existing.deleted && a.deleted {
          existing := existing.(deleted := true);
          if !existing.isDir {
            existing := existing.(size := a.size, firstSector := a.firstSector, numSectors := a.numSectors,
                                  mtime := a.mtime, sectorSize := a.sectorSize);
          }
        }
        nodes := nodes[id := nodes[id].(info := existing)];
        return;
      }
      id := |nodes|;
      nodes := WithChild(nodes, current, NewInfo(lastName, a));
      if !a.isDir {
        totalFiles := totalFiles + 1;
        totalSize := totalSize + a.size;
      } else {
        totalDirs := totalDirs + 1;
      }
    }

    /** Assign to fields of the node that `path` leads to. */
    method SetInfo(id: nat, info: Info, ghost path: seq<Name>)
      requires Valid() && Resolve(nodes, 0, path) == id
      requires info.name == nodes[id].info.name && info.isDir == nodes[id].info.isDir
      modifies this`nodes
      ensures Valid() && nodes == old(nodes)[id := old(nodes)[id].(info := info)]
      ensures |Lookup(old(Root()), path)| == 1
      ensures Root() == Put(old(Root()), path, Lookup(old(Root()), path)[0].(info := info))
    {
      hide WellNamed, Abs, CountFiles, Put, Lookup;
      SetInfoIsPut(nodes, 0, path, info);
      ResolveIsLookup(nodes, 0, path);
      InfoOnly(nodes, id, info);
      AbsInfo(nodes, id);
      PutInfoKeeps(Root(), path, Abs(nodes, id).(info := info));
      AbsInfo(nodes[id := nodes[id].(info := info)], 0);
      AbsInfo(nodes, 0);
      nodes := nodes[id := nodes[id].(info := info)];
    }

    /** tree_find_path; "/" and every other path without names is the root. */
    method TreeFindPath(path: seq<byte>) returns (id: int)
      requires Linked(nodes) && 0 !in path
      ensures id == Resolve(nodes, 0, Tokens(path))
    {
      hide Linked;
      if path == [SLASH] {
        assert Tokens(path) == [] by {
          assert path[1..] == [];
        }
        return 0;
      }
      var tokens := Tokens(path);
      LinkedNonEmpty(nodes);
      id := 0;
      var i := 0;
      assert tokens[0..] == tokens;
      while i < |tokens|
        invariant 0 <= i <= |tokens| && 0 <= id < |nodes|
        invariant Resolve(nodes, id, tokens[i..]) == Resolve(nodes, 0, tokens)
      {
        assert tokens[i..][1..] == tokens[i + 1..] && tokens[i..][0] == tokens[i];
        assert LinkedAt(nodes, id) by {
          LinkedEverywhere(nodes, id);
        }
        var k := FindChild(nodes, nodes[id].children, tokens[i]);
        if k == |nodes[id].children| {
          return -1;
        }
        id := nodes[id].children[k];
        i := i + 1;
      }
    }

    /** tree_get_path: at most MAX_CHAIN names, clipped to the buffer. */
    method TreeGetPath(node: nat, root: int, bufSize: nat) returns (buf: seq<byte>)
      requires Linked(nodes) && node < |nodes| && bufSize > 0
      ensures buf == Clipped(Joined(Ancestry(nodes, node, root, MAX_CHAIN)), bufSize)
    {
      hide Linked, Reversed, Joined, Ancestry;
      var chain: seq<Name> := [];
      var p: int := node;
      assert Reversed(chain) == [];
      ghost var all := Ancestry(nodes, node, root, MAX_CHAIN);
      while p >= 0 && p != root && |chain| < MAX_CHAIN
        invariant |Reversed(chain)| == |chain|
        invariant -1 <= p < |nodes| && |chain| <= MAX_CHAIN
        invariant all == Ancestry(nodes, p, root, MAX_CHAIN - |chain|) + Reversed(chain)
        decreases MAX_CHAIN - |chain|
      {
        LinkedEverywhere(nodes, p);
        AncestryStep(nodes, p, root, MAX_CHAIN - |chain|);
        ReversedAppend(chain, nodes[p].info.name);
        SplitPath(Ancestry(nodes, nodes[p].parent, root, MAX_CHAIN - |chain| - 1), [nodes[p].info.name],
                  Reversed(chain));
        chain := chain + [nodes[p].info.name];
        p := nodes[p].parent;
      }
      AncestryEnds(nodes, p, root, MAX_CHAIN - |chain|);
      assert all == Reversed(chain);
      buf := PrintChain(chain, bufSize);
    }

    /** The second loop of tree_get_path: snprintf "/%s" from the top of the chain down. */
    static method PrintChain(chain: seq<Name>, bufSize: nat) returns (buf: seq<byte>)
      requires bufSize > 0
      ensures buf == Clipped(Joined(Reversed(chain)), bufSize)
    {
      hide Joined, Reversed;
      ghost var full := Joined(Reversed(chain));
      buf := [];
      var i := |chain| - 1;
      assert chain[..i + 1] == chain;
      while i >= 0
        invariant -1 <= i < |chain| && |buf| < bufSize
        invariant buf + Joined(Reversed(chain[..i + 1])) == full
      {
        var rem := bufSize - |buf|;
        var piece := [SLASH] + chain[i];
        ghost var rest := Joined(Reversed(chain[..i]));
        assert buf + piece + rest == full by {
          PrintedStep(chain, i);
          assert buf + (piece + rest) == buf + piece + rest;
        }
        if rem <= 1 {
          assert full[..|buf|] == buf;
          return;
        }
        if |piece| >= rem {
          // snprintf wrote what fits
          assert (buf + piece + rest)[..bufSize - 1] == buf + piece[..rem - 1];
          buf := buf + piece[..rem - 1];
          return;
        }
        buf := buf + piece;
        i := i - 1;
      }
      assert buf == full by {
        NothingPrinted(chain[..0]);
      }
    }

    /** tree_count_marked */
    method TreeCountMarked(dir: nat) returns (count: nat, size: nat)
      requires Linked(nodes) && dir < |nodes|
      ensures (count, size) == Marked(Abs(nodes, dir))
      decreases |nodes| - dir
    {
      hide Linked;
      LinkedEverywhere(nodes, dir);
      var ch := nodes[dir].children;
      ghost var kids := Abs(nodes, dir).kids;
      count, size := 0, 0;
      for i := 0 to |ch|
        invariant (count, size) == MarkedAmong(kids[..i])
      {
        assert kids[..i + 1] == kids[..i] + [kids[i]];
        MarkedAmongConcat(kids[..i], [kids[i]]);
        assert kids[i] == Abs(nodes, ch[i]);
        var child := nodes[ch[i]].info;
        assert MarkedAmong([kids[i]][1..]) == (0, 0);
        if child.isDir {
          var subCount, subSize := TreeCountMarked(ch[i]);
          count, size := count + subCount, size + subSize;
        } else if child.marked {
          count, size := count + 1, size + child.size;
        }
      }
      assert kids[..|ch|] == kids;
    }
  }

  lemma AbsInfo(nodes: Nodes, i: nat)
    requires Linked(nodes) && i < |nodes|
    ensures Abs(nodes, i).info == nodes[i].info
  {
  }

  lemma LinkedNonEmpty(nodes: Nodes)
    requires Linked(nodes)
    ensures |nodes| > 0
  {
  }

  lemma LinkedEverywhere(nodes: Nodes, i: nat)
    requires Linked(nodes) && i < |nodes|
    ensures LinkedAt(nodes, i)
  {
  }

  function Reversed<T>(s: seq<T>): (r: seq<T>)
    ensures |r| == |s|
  {
    if |s| == 0 then [] else Reversed(s[1..]) + [s[0]]
  }

  lemma {:induction false} ReversedAppend<T>(s: seq<T>, x: T)
    ensures Reversed(s + [x]) == [x] + Reversed(s)
    decreases |s|
  {
    if |s| > 0 {
      assert (s + [x])[1..] == s[1..] + [x];
      ReversedAppend(s[1..], x);
    }
  }

  lemma NothingPrinted(chain: seq<Name>)
    requires |chain| == 0
    ensures Joined(Reversed(chain)) == []
  {
  }

  lemma PrintedStep(chain: seq<Name>, i: nat)
    requires i < |chain|
    ensures Joined(Reversed(chain[..i + 1])) == [SLASH] + chain[i] + Joined(Reversed(chain[..i]))
  {
    assert chain[..i + 1] == chain[..i] + [chain[i]];
    ReversedAppend(chain[..i], chain[i]);
    assert Reversed(chain[..i + 1])[1..] == Reversed(chain[..i]);
  }

  /** Everything tree_add_path promises about the whole tree. */
  lemma AddFacts(nodes: Nodes, tokens: seq<Name>, a: Attrs)
    requires Linked(nodes) && WellNamed(Abs(nodes, 0))
    requires forall i :: 0 <= i < |tokens| ==> NameOk(tokens[i])
    ensures var r := AddNodes(nodes, 0, tokens, a);
            && Abs(r.0, 0) == AddPath(Abs(nodes, 0), tokens, a) && WellNamed(Abs(r.0, 0))
            && Resolve(r.0, 0, tokens) == r.1 && Extends(nodes, r.0)
            && CountFiles(Abs(r.0, 0)) == CountFiles(Abs(nodes, 0))
                 + (if Resolve(nodes, 0, tokens) < 0 && !a.isDir then 1 else 0)
            && r.0[0].info.isDir == nodes[0].info.isDir
  {
    AddNodesIsAddPath(nodes, 0, tokens, a);
    AddPathKeepsNames(Abs(nodes, 0), tokens, a);
    AddedIsResolved(nodes, 0, tokens, a);
    AddNodesExtends(nodes, 0, tokens, a);
    AddPathCount(Abs(nodes, 0), tokens, a);
    ResolveIsLookup(nodes, 0, tokens);
    assert ExtendsAt(nodes, AddNodes(nodes, 0, tokens, a).0, 0);
  }

  lemma AddNothingFacts(nodes: Nodes, tokens: seq<Name>, a: Attrs)
    requires Linked(nodes) && |tokens| == 0
    ensures AddNodes(nodes, 0, tokens, a) == (nodes, 0) && Resolve(nodes, 0, tokens) == 0
  {
  }

  /** Nothing is found below a directory that was just created. */
  lemma NewDirIsEmpty(before: Nodes, after: Nodes, parent: nat, dir: nat, name: Name, rest: seq<Name>)
    requires Linked(before) && Linked(after) && parent < |before| && LinkedAt(before, parent) && |rest| > 0
    requires var k := FindChild(before, before[parent].children, name);
             if k < |before[parent].children| then after == before && dir == before[parent].children[k]
             else after == WithChild(before, parent, NewInfo(name, DirAttrs)) && dir == |before|
    ensures Resolve(after, dir, rest) < 0 <==> Resolve(before, parent, [name] + rest) < 0
  {
    assert ([name] + rest)[1..] == rest;
    LinkedEverywhere(after, dir);
  }
}
