/** Lists of partitions: src/disk/fnctdsk.c:164-305.

    A partition is shared between lists, so it is an object; a list is the sequence of its partitions. */
module Partitions {
  import opened Arith
  import opened Disks
  import opened ListOrder

  datatype Status = Deleted | Prim | PrimBoot | Log | Ext | ExtInExt

  /** errcode_type_t */
  datatype Errcode = BadNoErr | BadSS | BadES | BadSH | BadEH | BadEBS | BadRS | BadSC | BadEC | BadSCount

  const UP_UNK: nat := 0

  /** The fields of partition_t that the code below looks at. */
  datatype Part = Part(offset: nat, size: nat, sbOffset: nat, typeI386: nat, typeMac: nat, typeSun: nat, typeXbox: nat,
                       upartType: nat, typeGpt: seq<byte>, uuid: seq<byte>, name: seq<byte>, status: Status, order: nat,
                       errcode: Errcode)
  {
    /** The first byte after the partition. */
    function End(): nat {
      offset + size
    }
  }

  /** partition_reset */
  const BLANK: Part := Part(0, 0, 0, 0, 0, 0, 0, UP_UNK, [], [], [], Deleted, 255, BadNoErr)

  class Partition {
    var p: Part

    constructor (p: Part)
      ensures this.p == p
    {
      this.p := p;
    }
  }

  ghost function View(list: seq<Partition>): (v: seq<Part>)
    reads list
    ensures |v| == |list| && forall i :: 0 <= i < |list| ==> v[i] == list[i].p
  {
    seq(|list|, i requires 0 <= i < |list| reads list => list[i].p)
  }

  // ----- insertion -----

  /** x goes before y. */
  predicate Before(x: Part, y: Part, force: bool) {
    || x.offset < y.offset
    || (x.offset == y.offset && (x.size < y.size || (x.size == y.size && (!force || x.sbOffset < y.sbOffset))))
  }

  /** x is not worth a second entry beside y. */
  predicate Duplicates(x: Part, y: Part) {
    && x.offset == y.offset && x.size == y.size && x.typeI386 == y.typeI386 && x.typeMac == y.typeMac
    && x.typeSun == y.typeSun && x.typeXbox == y.typeXbox && (x.upartType == y.upartType || x.upartType == UP_UNK)
  }

  function Position(v: seq<Part>, x: Part, force: bool): (k: nat)
    ensures k <= |v| && (k < |v| ==> Before(x, v[k], force)) && forall i :: 0 <= i < k ==> !Before(x, v[i], force)
  {
    if |v| == 0 || Before(x, v[0], force) then 0 else 1 + Position(v[1..], x, force)
  }

  /** Behind all that start earlier, or there with a smaller size; a forced insertion also goes behind those of the same
      place and size whose superblock is not later. */
  lemma PositionIs(v: seq<Part>, x: Part, force: bool)
    ensures var k := Position(v, x, force);
            && (forall i :: 0 <= i < k ==>
                  || v[i].offset < x.offset
                  || (v[i].offset == x.offset && v[i].size < x.size)
                  || (force && v[i].offset == x.offset && v[i].size == x.size && v[i].sbOffset <= x.sbOffset))
            && (k < |v| ==>
                  || x.offset < v[k].offset
                  || (x.offset == v[k].offset && x.size < v[k].size)
                  || (x.offset == v[k].offset && x.size == v[k].size && (force ==> x.sbOffset < v[k].sbOffset)))
  {
  }

  function InsertedAt<T>(s: seq<T>, k: nat, x: T): (r: seq<T>)
    requires k <= |s|
    ensures |r| == |s| + 1 && r[k] == x
    ensures forall i :: 0 <= i < k ==> r[i] == s[i]
    ensures forall i :: k <= i < |s| ==> r[i + 1] == s[i]
  {
    s[..k] + [x] + s[k..]
  }

  lemma InsertedElements<T>(s: seq<T>, k: nat, x: T)
    requires k <= |s|
    ensures forall y :: y in s ==> y in InsertedAt(s, k, x)
    ensures forall y :: y in InsertedAt(s, k, x) ==> y == x || y in s
    ensures Distinct(s) && x !in s ==> Distinct(InsertedAt(s, k, x))
  {
    var r := InsertedAt(s, k, x);
    forall y | y in s
      ensures y in r
    {
      var i :| 0 <= i < |s| && s[i] == y;
      assert r[if i < k then i else i + 1] == y;
    }
    if Distinct(s) && x !in s {
      forall i, j | 0 <= i < j < |r|
        ensures r[i] != r[j]
      {
        assert i != k ==> r[i] == s[if i < k then i else i - 1];
        assert j != k ==> r[j] == s[if j < k then j else j - 1];
      }
    }
  }

  /** insert_new_partition: a duplicate is refused, and can revive the deleted partition it duplicates. */
  method InsertNewPartition(list: seq<Partition>, part: Partition, force: bool)
    returns (r: seq<Partition>, insertError: bool)
    modifies if force then {} else set x | x in list
    ensures var k := Position(old(View(list)), old(part.p), force);
            && (insertError <==> !force && k < |list| && Duplicates(old(part.p), old(list[k].p)))
            && r == (if insertError then list else InsertedAt(list, k, part))
            && (forall x :: x in list && (!insertError || x != list[k]) ==> x.p == old(x.p))
            && (insertError ==>
                  list[k].p == if old(list[k].p).status == Deleted then old(list[k].p).(status := old(part.p).status)
                                             else old(list[k].p))
  {
    var k := 0;
    ghost var v, x := View(list), part.p;
    while k < |list| && !Before(part.p, list[k].p, force)
      invariant 0 <= k <= |list| && forall i :: 0 <= i < k ==> !Before(x, v[i], force)
      invariant forall y :: y in list ==> y.p == old(y.p)
      invariant part.p == x
    {
      k := k + 1;
    }
    assert k == Position(v, x, force);
    insertError := !force && k < |list| && Duplicates(part.p, list[k].p);
    if insertError {
      if list[k].p.status == Deleted {
        list[k].p := list[k].p.(status := part.p.status);
      }
      return list, true;
    }
    r := InsertedAt(list, k, part);
  }

  // ----- order -----

  /** By offset, then by size. */
  predicate NotAfter(x: Part, y: Part) {
    x.offset < y.offset || (x.offset == y.offset && x.size <= y.size)
  }

  ghost predicate Ordered(v: seq<Part>) {
    forall i, j :: 0 <= i < j < |v| ==> NotAfter(v[i], v[j])
  }

  /** An ordered list stays ordered, whether or not duplicates are allowed. */
  lemma InsertKeepsOrder(v: seq<Part>, x: Part, force: bool)
    requires Ordered(v)
    ensures Ordered(InsertedAt(v, Position(v, x, force), x))
  {
    var k := Position(v, x, force);
    var r := InsertedAt(v, k, x);
    forall i | 0 <= i < |v|
      ensures if i < k then NotAfter(v[i], x) else NotAfter(x, v[i])
    {
      if i < k {
        assert !Before(x, v[i], force);
      } else if i > k {
        assert NotAfter(v[k], v[i]);
      }
    }
    InsertBetween(v, k, x);
  }

  lemma InsertBetween(v: seq<Part>, k: nat, x: Part)
    requires Ordered(v) && k <= |v|
    requires forall i :: 0 <= i < |v| ==> if i < k then NotAfter(v[i], x) else NotAfter(x, v[i])
    ensures Ordered(InsertedAt(v, k, x))
  {
    hide NotAfter;
    var r := InsertedAt(v, k, x);
    forall i, j | 0 <= i < j < |r|
      ensures NotAfter(r[i], r[j])
    {
      assert i != k ==> r[i] == v[if i < k then i else i - 1];
      assert j != k ==> r[j] == v[if j < k then j else j - 1];
    }
  }

  /** Order depends on offsets and sizes only. */
  lemma SameOrder(v: seq<Part>, w: seq<Part>)
    requires |v| == |w| && Ordered(v)
    requires forall i :: 0 <= i < |v| ==> v[i].offset == w[i].offset && v[i].size == w[i].size
    ensures Ordered(w)
  {
    forall i, j | 0 <= i < j < |w|
      ensures NotAfter(w[i], w[j])
    {
      assert NotAfter(v[i], v[j]);
    }
  }

  /** The filesystem probe that follows the decoding of a partition, as far as it matters here: the kind of
      filesystem it finds. */
  function Probed(probe: Part -> nat, p: Part): Part {
    p.(upartType := probe(p))
  }

  /** insert_new_partition on values. */
  function Added(v: seq<Part>, x: Part): (seq<Part>, bool) {
    var k := Position(v, x, false);
    if k < |v| && Duplicates(x, v[k]) then
      (if v[k].status == Deleted then v[k := v[k].(status := x.status)] else v, false)
    else
      (InsertedAt(v, k, x), true)
  }

  /** The k-th partition is the first of that place and size. */
  ghost predicate FirstThere(v: seq<Part>, k: nat, x: Part) {
    && k < |v| && v[k].offset == x.offset && v[k].size == x.size
    && forall i :: 0 <= i < k ==> !(v[i].offset == x.offset && v[i].size == x.size)
  }

  /** On an ordered list a partition is refused exactly when the first one of its place and size is of the same type and
      of the same kind, or x of no known kind.  It is not compared with the others there. */
  lemma RefusedIff(v: seq<Part>, x: Part)
    requires Ordered(v)
    ensures !Added(v, x).1 <==>
              exists k: nat :: FirstThere(v, k, x)
                && v[k].typeI386 == x.typeI386 && v[k].typeMac == x.typeMac && v[k].typeSun == x.typeSun
                && v[k].typeXbox == x.typeXbox && (x.upartType == UP_UNK || v[k].upartType == x.upartType)
  {
    var k := Position(v, x, false);
    if i: nat :| FirstThere(v, i, x) {
      FirstIsPosition(v, i, x);
    }
    if k < |v| && Duplicates(x, v[k]) {
      assert FirstThere(v, k, x);
    }
  }

  lemma FirstIsPosition(v: seq<Part>, i: nat, x: Part)
    requires Ordered(v) && FirstThere(v, i, x)
    ensures Position(v, x, false) == i
  {
    forall j | 0 <= j < i
      ensures !Before(x, v[j], false)
    {
      assert NotAfter(v[j], v[i]);
    }
    assert Before(x, v[i], false);
  }

  /** Two partitions of one place and of different types: the second one is inserted again. */
  lemma TwinsAtOnePlace() returns (v: seq<Part>, x: Part)
    ensures Ordered(v) && |v| == 2 && x == v[1] && Added(v, x).1
  {
    x := BLANK.(offset := 512, size := 512);
    v := [x.(typeI386 := 7), x];
    assert Position(v, x, false) == 0;
  }

  /** A new partition object, inserted unless it is known. */
  method AddPart(list: seq<Partition>, x: Part) returns (r: seq<Partition>, added: bool)
    requires Distinct(list)
    modifies set y | y in list
    ensures Distinct(r)
    ensures (View(r), added) == Added(old(View(list)), x)
    ensures forall y :: y in r ==> y in list || fresh(y)
  {
    hide Position, Duplicates, Distinct;
    var part := new Partition(x);
    ghost var v := View(list);
    ghost var k := Position(v, x, false);
    var insertError;
    r, insertError := InsertNewPartition(list, part, false);
    added := !insertError;
    if added {
      ViewInserted(list, k, part, v);
      InsertedElements(list, k, part);
    } else {
      ViewRevived(list, k, v);
    }
  }

  /** Only the k-th partition may have changed. */
  lemma ViewRevived(list: seq<Partition>, k: nat, v: seq<Part>)
    requires Distinct(list) && k < |list| == |v| && forall y :: y in list && y != list[k] ==>
              exists i :: 0 <= i < |list| && list[i] == y && y.p == v[i]
    ensures View(list) == v[k := list[k].p] && (list[k].p == v[k] ==> View(list) == v)
  {
    forall i | 0 <= i < |list| && i != k
      ensures list[i].p == v[i]
    {
      var j :| 0 <= j < |list| && list[j] == list[i] && list[i].p == v[j];
    }
  }

  /** x belongs to the list and is not deleted. */
  ghost predicate Live(list: seq<Partition>, x: Partition)
    reads list
  {
    x in list && x.p.status != Deleted
  }

  /** Inserting into an ordered list, duplicates allowed. */
  method InsertForced(list: seq<Partition>, part: Partition) returns (r: seq<Partition>)
    requires Distinct(list) && Ordered(View(list)) && part !in list
    ensures Distinct(r) && Ordered(View(r)) && part in r
    ensures forall x :: x in list ==> x in r
    ensures forall x :: x in r ==> x == part || x in list
  {
    hide Ordered, Distinct, Position;
    ghost var k := Position(View(list), part.p, true);
    InsertKeepsOrder(View(list), part.p, true);
    InsertedElements(list, k, part);
    var insertError;
    r, insertError := InsertNewPartition(list, part, true);
    ViewInserted(list, k, part, View(list));
    assert r[k] == part;
  }

  /** Inserting into an ordered list, without duplicates; `kept` is the partition or what it duplicates. */
  method InsertUnlessKnown(list: seq<Partition>, part: Partition)
    returns (r: seq<Partition>, insertError: bool, ghost kept: Partition)
    requires Distinct(list) && Ordered(View(list)) && part !in list
    modifies set x | x in list
    ensures Distinct(r) && Ordered(View(r)) && part.p == old(part.p)
    ensures forall x :: x in list ==> x in r && x.p == old(x.p).(status := x.p.status)
    ensures forall x :: x in r ==> x == part || x in list
    ensures kept in r && Duplicates(part.p, kept.p) && (insertError <==> part !in r)
  {
    hide Ordered, Distinct, Position, Duplicates;
    ghost var v, x := View(list), part.p;
    ghost var k := Position(v, x, false);
    InsertKeepsOrder(v, x, false);
    InsertedElements(list, k, part);
    r, insertError := InsertNewPartition(list, part, false);
    if insertError {
      SameOrder(v, View(r));
      DuplicatesAnyStatus(x, v[k], x, list[k].p);
      kept := list[k];
    } else {
      ViewInserted(list, k, part, v);
      kept := r[k];
      DuplicatesItself(x);
    }
  }

  lemma DuplicatesItself(x: Part)
    ensures Duplicates(x, x)
  {
  }

  lemma ViewInserted(list: seq<Partition>, k: nat, part: Partition, v: seq<Part>)
    requires k <= |list| == |v| && forall i :: 0 <= i < |list| ==> list[i].p == v[i]
    ensures View(InsertedAt(list, k, part)) == InsertedAt(v, k, part.p)
  {
    var r, b := InsertedAt(list, k, part), InsertedAt(v, k, part.p);
    forall i | 0 <= i < |r|
      ensures r[i].p == b[i]
    {
      if i < k {
        assert r[i] == list[i];
      } else if i > k {
        assert r[i - 1 + 1] == list[i - 1] && b[i - 1 + 1] == v[i - 1];
      }
    }
  }

  lemma DuplicatesAnyStatus(x: Part, y: Part, x': Part, y': Part)
    requires Duplicates(x, y) && x' == x.(status := x'.status) && y' == y.(status := y'.status)
    ensures Duplicates(x', y')
  {
  }

  /** gen_sorted_partition_list: the partitions that are not deleted, each once, by offset and size. */
  method GenSortedPartitionList(list: seq<Partition>) returns (r: seq<Partition>)
    requires Distinct(list)
    ensures Distinct(r) && Ordered(View(r))
    ensures forall x :: x in r ==> Live(list, x)
    ensures forall x :: x in list && Live(list, x) ==> x in r
  {
    hide Ordered, Distinct;
    r := [];
    NothingYet();
    for i := 0 to |list|
      invariant Distinct(r) && Ordered(View(r))
      invariant forall x :: x in r ==> x in list[..i] && x.p.status != Deleted
      invariant forall j :: 0 <= j < i && list[j].p.status != Deleted ==> list[j] in r
    {
      if list[i].p.status != Deleted {
        NotBefore(list, i);
        r := InsertForced(r, list[i]);
      }
    }
  }

  lemma NothingYet()
    ensures Distinct<Partition>([]) && Ordered([])
  {
  }

  lemma NotBefore<T>(s: seq<T>, i: nat)
    requires Distinct(s) && i < |s|
    ensures s[i] !in s[..i]
  {
  }

  /** Something in the list is x, or makes it superfluous. */
  ghost predicate Represented(x: Part, list: seq<Partition>)
    reads list
  {
    exists y :: y in list && Duplicates(x, y.p)
  }

  /** sort_partition_list: ordered, and everything dropped was a duplicate of something kept.  Only the status of a
      kept partition may change. */
  method SortPartitionList(list: seq<Partition>) returns (r: seq<Partition>)
    requires Distinct(list)
    modifies list
    ensures Distinct(r) && Ordered(View(r)) && forall x :: x in r ==> x in list
    ensures forall x :: x in list ==> Represented(old(x.p), r)
    ensures forall x :: x in list ==> x.p == old(x.p).(status := x.p.status)
  {
    hide Ordered, Distinct, Represented;
    r := [];
    NothingYet();
    for i := 0 to |list|
      invariant Distinct(r) && Ordered(View(r)) && forall x :: x in r ==> x in list[..i]
      invariant forall j :: 0 <= j < i ==> Represented(old(list[j].p), r)
      invariant forall x :: x in list ==> x.p == old(x.p).(status := x.p.status)
    {
      NotBefore(list, i);
      assert forall x :: x in r ==> x in list;
      r := SortOne(r, list[i], old(list[i].p));
    }
  }

  /** One turn of the loop: what was represented stays represented, and so is the new partition. */
  method SortOne(list: seq<Partition>, part: Partition, ghost was: Part) returns (r: seq<Partition>)
    requires Distinct(list) && Ordered(View(list)) && part !in list && part.p == was.(status := part.p.status)
    modifies set x | x in list
    ensures Distinct(r) && Ordered(View(r)) && part.p == old(part.p)
    ensures forall x :: x in list ==> x.p == old(x.p).(status := x.p.status)
    ensures forall x :: x in r ==> x == part || x in list
    ensures Represented(was, r) && forall p: Part :: old(Represented(p, list)) ==> Represented(p, r)
  {
    hide Ordered, Distinct, Duplicates;
    var insertError;
    ghost var kept;
    r, insertError, kept := InsertUnlessKnown(list, part);
    DuplicatesAnyStatus(part.p, kept.p, was, kept.p);
    forall p: Part | old(Represented(p, list))
      ensures Represented(p, r)
    {
      var y :| y in list && Duplicates(p, old(y.p));
      DuplicatesAnyStatus(p, old(y.p), p, y.p);
      assert y in r;
    }
  }

  // ----- overlap -----

  /** part_offset + part_size - 1 in 64-bit arithmetic: for an empty partition at offset 0 it wraps around. */
  function LastByte(p: Part): nat {
    if p.End() == 0 then MAX_UINT64 else p.End() - 1
  }

  /** p, which starts no later than q, reaches into q, or leaves no room before a logical partition. */
  predicate Conflict(p: Part, q: Part) {
    LastByte(p) >= q.offset || (p.status in {Prim, PrimBoot, Log} && q.status == Log && p.End() >= q.offset)
  }

  /** Two partitions share a byte. */
  predicate Overlap(p: Part, q: Part) {
    p.offset < q.End() && q.offset < p.End()
  }

  predicate HasByte(p: Part, b: nat) {
    p.offset <= b < p.offset + p.size
  }

  lemma OverlapIsByte(p: Part, q: Part)
    requires p.size > 0 && q.size > 0
    ensures Overlap(p, q) <==> exists b :: HasByte(p, b) && HasByte(q, b)
  {
    if Overlap(p, q) {
      var b := if p.offset < q.offset then q.offset else p.offset;
      assert HasByte(p, b) && HasByte(q, b);
    }
  }

  /** Neighbours are in conflict when they share a byte, or when a logical partition follows a primary or a logical one
      without a gap for its record. */
  lemma ConflictIsByte(p: Part, q: Part)
    requires p.size > 0 && q.size > 0 && p.offset <= q.offset
    ensures Conflict(p, q) <==>
              || (exists b :: HasByte(p, b) && HasByte(q, b))
              || (q.status == Log && (p.status == Prim || p.status == PrimBoot || p.status == Log)
                  && p.offset + p.size == q.offset)
  {
    OverlapIsByte(p, q);
  }

  ghost predicate NonEmpty(v: seq<Part>) {
    forall i :: 0 <= i < |v| ==> v[i].size > 0
  }

  ghost predicate AdjacentConflict(v: seq<Part>) {
    exists i :: 0 <= i < |v| - 1 && Conflict(v[i], v[i + 1])
  }

  /** is_part_overlapping */
  method IsPartOverlapping(list: seq<Partition>) returns (res: bool)
    ensures res <==> AdjacentConflict(View(list))
  {
    ghost var v := View(list);
    if |list| == 0 {
      return false;
    }
    var i := 0;
    while i + 1 < |list|
      invariant 0 <= i < |list|
      invariant forall j :: 0 <= j < i ==> !Conflict(v[j], v[j + 1])
    {
      var p, q := list[i].p, list[i + 1].p;
      if LastByte(p) >= q.offset
         || ((p.status == Prim || p.status == PrimBoot || p.status == Log) && q.status == Log && p.End() >= q.offset)
      {
        assert Conflict(v[i], v[i + 1]);
        return true;
      }
      i := i + 1;
    }
    res := false;
  }

  /** On a list ordered by offset, looking at neighbours is looking at all pairs. */
  lemma AdjacentIsAllPairs(v: seq<Part>)
    requires NonEmpty(v) && forall i, j :: 0 <= i < j < |v| ==> v[i].offset <= v[j].offset
    ensures AdjacentConflict(v) <==> exists i, j :: 0 <= i < j < |v| && Conflict(v[i], v[j])
  {
    hide AdjacentConflict, Conflict, NonEmpty;
    if AdjacentConflict(v) {
      AdjacentPair(v);
    } else {
      forall i, j | 0 <= i < j < |v|
        ensures !Conflict(v[i], v[j])
      {
        ApartFromAll(v, i, j);
      }
    }
  }

  lemma AdjacentPair(v: seq<Part>)
    requires AdjacentConflict(v)
    ensures exists i, j :: 0 <= i < j < |v| && Conflict(v[i], v[j])
  {
    hide Conflict;
    var i :| 0 <= i < |v| - 1 && Conflict(v[i], v[i + 1]);
    var j := i + 1;
    assert Conflict(v[i], v[j]);
  }

  lemma {:induction false} ApartFromAll(v: seq<Part>, i: nat, j: nat)
    requires NonEmpty(v) && !AdjacentConflict(v) && i < j < |v|
    ensures !Conflict(v[i], v[j]) && v[i].End() <= v[j].offset
    decreases j
  {
    assert !Conflict(v[j - 1], v[j]);
    if i < j - 1 {
      ApartFromAll(v, i, j - 1);
    }
  }
}

/** src/disk/partgpt.c:322-330 and 388-426. */
module GptStructure {
  import opened Disks
  import opened ListOrder
  import opened Partitions

  const UNUSED: seq<byte> := [0, 0, 0, 0, 0, 0, 0, 0, 0, 0, 0, 0, 0, 0, 0, 0]

  // ----- partition numbers -----

  predicate Numbered(p: Part) {
    p.size > 0 && p.typeGpt != UNUSED
  }

  function CountNumbered(v: seq<Part>): nat {
    if |v| == 0 then 0 else CountNumbered(v[..|v| - 1]) + if Numbered(v[|v| - 1]) then 1 else 0
  }

  /** Partition i, numbered. */
  function Renumbered(v: seq<Part>, i: nat): Part
    requires i < |v|
  {
    if Numbered(v[i]) then v[i].(order := 1 + CountNumbered(v[..i])) else v[i]
  }

  /** The numbered partitions before the i-th. */
  function NumberedBefore(v: seq<Part>, i: nat): set<nat>
    requires i <= |v|
  {
    set j: nat | j < i && v[j].size > 0 && v[j].typeGpt != NulBytes(16)
  }

  /** A number counts the partitions numbered before. */
  lemma {:induction false} NumberIsRank(v: seq<Part>, i: nat)
    requires i < |v|
    ensures Renumbered(v, i)
            == if v[i].size > 0 && v[i].typeGpt != NulBytes(16) then v[i].(order := 1 + |NumberedBefore(v, i)|)
               else v[i]
  {
    assert UNUSED == NulBytes(16);
    CountIsSet(v, i);
  }

  lemma {:induction false} CountIsSet(v: seq<Part>, i: nat)
    requires i <= |v|
    ensures CountNumbered(v[..i]) == |NumberedBefore(v, i)|
  {
    hide CountNumbered, Renumbered, NumberedBefore;
    if i > 0 {
      CountIsSet(v, i - 1);
      CountNext(v, i - 1);
      OneMoreNumbered(v, i - 1);
    } else {
      CountNone(v);
      assert NumberedBefore(v, i) == {} by {
        NoneNumbered(v);
      }
    }
  }

  lemma NoneNumbered(v: seq<Part>)
    ensures NumberedBefore(v, 0) == {}
  {
  }

  lemma OneMoreNumbered(v: seq<Part>, i: nat)
    requires i < |v|
    ensures |NumberedBefore(v, i + 1)| == |NumberedBefore(v, i)| + if Numbered(v[i]) then 1 else 0
  {
    assert UNUSED == NulBytes(16);
    assert i !in NumberedBefore(v, i);
    assert NumberedBefore(v, i + 1) == NumberedBefore(v, i) + if Numbered(v[i]) then {i} else {};
  }

  /** init_part_order_gpt numbers the real partitions 1, 2, ... in list order. */
  method InitPartOrder(list: seq<Partition>)
    requires Distinct(list)
    modifies list
    ensures forall i :: 0 <= i < |list| ==> list[i].p == Renumbered(old(View(list)), i)
  {
    hide Renumbered, CountNumbered, View;
    ghost var v := View(list);
    var order := 1;
    CountNone(v);
    for i := 0 to |list|
      invariant order == 1 + CountNumbered(v[..i])
      invariant forall j :: 0 <= j < i ==> list[j].p == Renumbered(v, j)
      invariant forall j :: i <= j < |list| ==> list[j].p == v[j]
    {
      CountNext(v, i);
      if list[i].p.size > 0 && list[i].p.typeGpt != UNUSED {
        list[i].p := list[i].p.(order := order);
        order := order + 1;
      }
    }
  }

  lemma CountNone(v: seq<Part>)
    ensures CountNumbered(v[..0]) == 0
  {
  }

  lemma CountNext(v: seq<Part>, i: nat)
    requires i < |v|
    ensures CountNumbered(v[..i + 1]) == CountNumbered(v[..i]) + if Numbered(v[i]) then 1 else 0
    ensures Renumbered(v, i) == if Numbered(v[i]) then v[i].(order := 1 + CountNumbered(v[..i])) else v[i]
  {
    assert v[..i + 1][..i] == v[..i];
  }

  // ----- structure -----

  /** Two partitions of the list that are not deleted share a byte. */
  ghost predicate SomeOverlap(list: seq<Partition>)
    reads list
  {
    exists x, y :: x in list && y in list && x != y && Live(list, x) && Live(list, y) && Overlap(x.p, y.p)
  }

  /** test_structure_gpt: whether two partitions overlap, wherever they are in the list. */
  method TestStructureGpt(list: seq<Partition>) returns (bad: bool)
    requires Distinct(list) && NonEmpty(View(list)) && forall x :: x in list ==> x.p.status != Log
    ensures bad <==> SomeOverlap(list)
  {
    hide SomeOverlap, Ordered, Distinct, AdjacentConflict, NonEmpty;
    var sorted := GenSortedPartitionList(list);
    bad := IsPartOverlapping(sorted);
    SortedOverlap(list, sorted);
  }

  ghost predicate SortedFrom(list: seq<Partition>, sorted: seq<Partition>)
    reads list, sorted
  {
    && Distinct(sorted) && Ordered(View(sorted))
    && (forall x :: x in sorted ==> Live(list, x))
    && forall x :: x in list && Live(list, x) ==> x in sorted
  }

  lemma SortedOverlap(list: seq<Partition>, sorted: seq<Partition>)
    requires NonEmpty(View(list)) && (forall x :: x in list ==> x.p.status != Log) && SortedFrom(list, sorted)
    ensures AdjacentConflict(View(sorted)) <==> SomeOverlap(list)
  {
    hide AdjacentConflict, SomeOverlap, Conflict;
    var v := View(sorted);
    SortedNonEmpty(list, sorted);
    AdjacentIsAllPairs(v);
    if AdjacentConflict(v) {
      var i, j :| 0 <= i < j < |v| && Conflict(v[i], v[j]);
      ConflictIsOverlap(list, sorted, i, j);
    }
    if SomeOverlap(list) {
      OverlapIsConflict(list, sorted);
    }
  }

  lemma SortedNonEmpty(list: seq<Partition>, sorted: seq<Partition>)
    requires NonEmpty(View(list)) && SortedFrom(list, sorted)
    ensures NonEmpty(View(sorted))
    ensures var v := View(sorted); forall i, j :: 0 <= i < j < |v| ==> v[i].offset <= v[j].offset
  {
    hide Ordered;
    var v := View(sorted);
    forall i | 0 <= i < |v|
      ensures v[i].size > 0
    {
      assert Live(list, sorted[i]);
      var j :| 0 <= j < |list| && list[j] == sorted[i];
      assert View(list)[j].size > 0;
    }
    OrderedOffsets(v);
  }

  lemma OrderedOffsets(v: seq<Part>)
    requires Ordered(v)
    ensures forall i, j :: 0 <= i < j < |v| ==> v[i].offset <= v[j].offset
  {
    forall i, j | 0 <= i < j < |v|
      ensures v[i].offset <= v[j].offset
    {
      assert NotAfter(v[i], v[j]);
    }
  }

  lemma ConflictIsOverlap(list: seq<Partition>, sorted: seq<Partition>, i: nat, j: nat)
    requires (forall x :: x in list ==> x.p.status != Log) && SortedFrom(list, sorted)
    requires i < j < |sorted| && Conflict(sorted[i].p, sorted[j].p) && sorted[i].p.size > 0 && sorted[j].p.size > 0
    requires sorted[i].p.offset <= sorted[j].p.offset
    ensures SomeOverlap(list)
  {
    hide Ordered;
    assert Live(list, sorted[i]) && Live(list, sorted[j]);
    assert sorted[i] != sorted[j] && Overlap(sorted[i].p, sorted[j].p);
  }

  lemma OverlapIsConflict(list: seq<Partition>, sorted: seq<Partition>)
    requires SortedFrom(list, sorted) && SomeOverlap(list)
    ensures var v := View(sorted); exists i, j :: 0 <= i < j < |v| && Conflict(v[i], v[j])
  {
    hide Ordered, Distinct;
    var x, y :| x in list && y in list && x != y && Live(list, x) && Live(list, y) && Overlap(x.p, y.p);
    assert x in sorted && y in sorted;
    var i :| 0 <= i < |sorted| && sorted[i] == x;
    var j :| 0 <= j < |sorted| && sorted[j] == y;
    var v := View(sorted);
    assert if i < j then Conflict(v[i], v[j]) else Conflict(v[j], v[i]);
  }

  /** Partition i shares a byte with another one. */
  ghost predicate Overlaps(v: seq<Part>, i: nat)
    requires i < |v|
  {
    exists j :: 0 <= j < |v| && j != i && Overlap(v[i], v[j])
  }

  /** init_structure_gpt: exactly the partitions that overlap no other become primary; nothing else changes.
      In particular the code that would mark them all deleted never runs. */
  method InitStructureGpt(list: seq<Partition>)
    requires Distinct(list) && NonEmpty(View(list))
    requires forall i, j :: 0 <= i < j < |list| ==> list[i].p.offset <= list[j].p.offset
    modifies list
    ensures forall i :: 0 <= i < |list| ==>
              list[i].p == if Overlaps(old(View(list)), i) then old(list[i].p) else old(list[i].p).(status := Prim)
  {
    ghost var v := View(list);
    var removed := MarkOverlaps(list);
    var kept := KeepUnmarked(list, removed);
    assert forall k :: 0 <= k < |kept| ==> kept[k] in list;
    SetAll(kept, Prim);
    assert forall i :: 0 <= i < |list| ==> (list[i] in kept <==> !Overlaps(v, i));
    assert forall i :: 0 <= i < |list| ==> list[i].p == if Overlaps(v, i) then v[i] else v[i].(status := Prim);
    NoOverlapLeft(list, v, kept);
    var bad := TestStructureGpt(kept);
    if bad {
      // here the source would mark them all deleted
      assert false;
    }
  }

  lemma NoOverlapLeft(list: seq<Partition>, v: seq<Part>, kept: seq<Partition>)
    requires |v| == |list| && NonEmpty(v)
    requires forall i :: 0 <= i < |list| ==> list[i].p == if Overlaps(v, i) then v[i] else v[i].(status := Prim)
    requires forall x :: x in kept ==> x in list
    requires forall i :: 0 <= i < |list| ==> (list[i] in kept <==> !Overlaps(v, i))
    ensures NonEmpty(View(kept)) && !SomeOverlap(kept) && forall x :: x in kept ==> x.p.status == Prim
  {
    hide Overlaps;
    forall x | x in kept
      ensures x.p.size > 0 && x.p.status == Prim
    {
      var i :| 0 <= i < |list| && list[i] == x;
      assert v[i].size > 0;
    }
    forall x, y | x in kept && y in kept && x != y
      ensures !Overlap(x.p, y.p)
    {
      var i :| 0 <= i < |list| && list[i] == x;
      var j :| 0 <= j < |list| && list[j] == y;
      NotOverlapping(v, i, j);
    }
  }

  lemma NotOverlapping(v: seq<Part>, i: nat, j: nat)
    requires i < |v| && j < |v| && i != j && !Overlaps(v, i)
    ensures !Overlap(v[i], v[j])
  {
  }

  /** The list of the partitions that were not marked. */
  method KeepUnmarked(list: seq<Partition>, removed: seq<bool>) returns (kept: seq<Partition>)
    requires Distinct(list) && NonEmpty(View(list)) && |removed| == |list|
    requires forall i, j :: 0 <= i < j < |list| ==> list[i].p.offset <= list[j].p.offset
    requires forall i :: 0 <= i < |list| ==> (removed[i] <==> Overlaps(View(list), i))
    modifies list
    ensures View(list) == old(View(list)) && Distinct(kept) && forall x :: x in kept ==> x in list
    ensures forall i :: 0 <= i < |list| ==> (list[i] in kept <==> !Overlaps(View(list), i))
  {
    hide Overlaps, Position, Distinct;
    ghost var v := View(list);
    kept := [];
    ghost var at: seq<nat> := [];
    for i := 0 to |list|
      invariant |at| == |kept| && View(list) == v
      invariant forall k :: 0 <= k < |at| ==> at[k] < i && kept[k] == list[at[k]] && !Overlaps(v, at[k])
      invariant forall k, l :: 0 <= k < l < |at| ==> at[k] < at[l]
      invariant forall j :: 0 <= j < i && !Overlaps(v, j) ==> j in at
    {
      if !removed[i] {
        AppendsAtEnd(v, View(kept), at, i);
        kept := Append(kept, list[i]);
        at := at + [i];
      }
    }
    Subsequence(list, at, kept);
  }

  lemma Subsequence(list: seq<Partition>, at: seq<nat>, kept: seq<Partition>)
    requires Distinct(list) && |at| == |kept| && forall k :: 0 <= k < |at| ==> at[k] < |list| && kept[k] == list[at[k]]
    requires forall k, l :: 0 <= k < l < |at| ==> at[k] < at[l]
    ensures Distinct(kept) && forall x :: x in kept ==> x in list
    ensures forall j :: 0 <= j < |list| ==> (list[j] in kept <==> j in at)
  {
  }

  /** Inserting what comes last. */
  method Append(list: seq<Partition>, part: Partition) returns (r: seq<Partition>)
    requires Position(View(list), part.p, false) == |list|
    modifies list
    ensures r == list + [part] && (forall x :: x in list ==> x.p == old(x.p)) && part.p == old(part.p)
  {
    hide Position;
    var insertError;
    r, insertError := InsertNewPartition(list, part, false);
    assert r == list + [part];
  }

  /** The double loop over to_be_removed. */
  method MarkOverlaps(list: seq<Partition>) returns (removed: seq<bool>)
    requires NonEmpty(View(list)) && forall i, j :: 0 <= i < j < |list| ==> list[i].p.offset <= list[j].p.offset
    ensures |removed| == |list| && forall i :: 0 <= i < |list| ==> (removed[i] <==> Overlaps(View(list), i))
  {
    ghost var v := View(list);
    removed := seq(|list|, _ => false);
    for i := 0 to |list|
      invariant |removed| == |list|
      invariant forall k :: 0 <= k < |list| ==>
                  (removed[k] <==>
                     exists a, b :: 0 <= a < i && a < b < |list| && (k == a || k == b) && v[a].End() > v[b].offset)
    {
      for j := i + 1 to |list|
        invariant |removed| == |list|
        invariant forall k :: 0 <= k < |list| ==>
                    (removed[k] <==>
                       exists a, b :: 0 <= a <= i && a < b < |list| && (a < i || b < j) &&
                                      (k == a || k == b) && v[a].End() > v[b].offset)
      {
        if list[i].p.offset + list[i].p.size - 1 >= list[j].p.offset {
          removed := removed[i := true][j := true];
        }
      }
    }
  }

  /** A later, non-overlapping partition goes to the end of the list. */
  lemma AppendsAtEnd(v: seq<Part>, kept: seq<Part>, at: seq<nat>, i: nat)
    requires i < |v| && |at| == |kept| && NonEmpty(v) && !Overlaps(v, i)
    requires forall a, b :: 0 <= a < b < |v| ==> v[a].offset <= v[b].offset
    requires forall k :: 0 <= k < |at| ==> at[k] < i && kept[k] == v[at[k]]
    ensures Position(kept, v[i], false) == |kept|
  {
    forall k | 0 <= k < |kept|
      ensures !Before(v[i], kept[k], false)
    {
      assert !Overlap(v[i], v[at[k]]);
    }
  }

  method SetAll(list: seq<Partition>, status: Status)
    modifies list
    ensures forall x :: x in list ==> x.p == old(x.p).(status := status)
  {
    for i := 0 to |list|
      invariant forall k :: 0 <= k < i ==> list[k].p == old(list[k].p).(status := status)
      invariant forall x :: x in list ==> x.p == old(x.p) || x.p == old(x.p).(status := status)
    {
      list[i].p := list[i].p.(status := status);
    }
  }
}
