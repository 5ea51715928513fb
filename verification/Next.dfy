/** src/disk/next.c: the set of arithmetic progressions of disk offsets worth probing, and the
    enumeration of their union in increasing order. */
module Next {
  import opened Arith

  const SEARCH_LOCATION_MAX: nat := 256

  /** offset, offset + inc, offset + 2 inc, ...; just offset when inc is 0. */
  datatype Location = Location(offset: nat, inc: nat)

  predicate In(x: nat, l: Location) {
    if l.inc == 0 then x == l.offset else x >= l.offset && (x - l.offset) % l.inc == 0
  }

  ghost predicate InUnion(x: nat, ls: seq<Location>) {
    exists i :: 0 <= i < |ls| && In(x, ls[i])
  }

  ghost predicate AllPositive(ls: seq<Location>) {
    forall i :: 0 <= i < |ls| ==> ls[i].inc > 0
  }

  // ----- subsumption between two progressions -----

  /** `src` takes over the entry: everything `cur` denotes, `src` denotes too. */
  predicate Replaces(src: Location, cur: Location) {
    && src.inc > 0
    && (|| (cur.offset == src.offset && cur.inc >= src.inc && cur.inc % src.inc == 0)
        || (cur.inc == 0 && cur.offset == src.offset)
        || (cur.inc == src.inc && cur.offset >= src.offset && (cur.offset - src.offset) % cur.inc == 0))
  }

  /** `cur` already denotes everything `src` denotes. */
  predicate Covers(cur: Location, src: Location) {
    if src.inc == 0 then cur.offset == src.offset
    else cur.inc > 0 && ((cur.offset == src.offset && src.inc >= cur.inc && src.inc % cur.inc == 0)
                         || (cur.inc == src.inc && src.offset >= cur.offset
                             && (src.offset - cur.offset) % cur.inc == 0))
  }

  lemma ReplacesContains(src: Location, cur: Location, x: nat)
    requires Replaces(src, cur) && In(x, cur)
    ensures In(x, src)
  {
    if cur.inc > 0 {
      if cur.offset == src.offset && cur.inc % src.inc == 0 {
        FinerStep(x - cur.offset, cur.inc, src.inc);
      } else {
        ModAdd(x - cur.offset, cur.offset - src.offset, src.inc);
      }
    }
  }

  lemma CoversContains(cur: Location, src: Location, x: nat)
    requires Covers(cur, src) && In(x, src)
    ensures In(x, cur)
  {
    if src.inc > 0 {
      if cur.offset == src.offset && src.inc % cur.inc == 0 {
        FinerStep(x - src.offset, src.inc, cur.inc);
      } else {
        ModAdd(x - src.offset, src.offset - cur.offset, cur.inc);
      }
    }
  }

  lemma FinerStep(n: nat, coarse: nat, fine: nat)
    requires coarse > 0 && fine > 0 && n % coarse == 0 && coarse % fine == 0
    ensures n % fine == 0
  {
    assert n == coarse * (n / coarse);
    ModMul(coarse, n / coarse, fine);
  }

  /** Replacing an entry by `src` adds exactly `src` to the union. */
  lemma ReplaceUnion(ls: seq<Location>, i: nat, src: Location)
    requires i < |ls| && Replaces(src, ls[i])
    ensures forall x :: InUnion(x, ls[i := src]) <==> InUnion(x, ls) || In(x, src)
  {
    var after := ls[i := src];
    forall x
      ensures InUnion(x, after) <==> InUnion(x, ls) || In(x, src)
    {
      if InUnion(x, after) {
        var j :| 0 <= j < |after| && In(x, after[j]);
        assert j != i ==> In(x, ls[j]);
      }
      if InUnion(x, ls) {
        var j :| 0 <= j < |ls| && In(x, ls[j]);
        if j == i {
          ReplacesContains(src, ls[i], x);
          assert In(x, after[i]);
        } else {
          assert In(x, after[j]);
        }
      }
      if In(x, src) {
        assert In(x, after[i]);
      }
    }
  }

  lemma CoverUnion(ls: seq<Location>, i: nat, src: Location)
    requires i < |ls| && Covers(ls[i], src)
    ensures forall x :: InUnion(x, ls) <==> InUnion(x, ls) || In(x, src)
  {
    forall x | In(x, src)
      ensures InUnion(x, ls)
    {
      CoversContains(ls[i], src, x);
    }
  }

  lemma AppendUnion(ls: seq<Location>, src: Location)
    ensures forall x :: InUnion(x, ls + [src]) <==> InUnion(x, ls) || In(x, src)
  {
    var after := ls + [src];
    forall x
      ensures InUnion(x, after) <==> InUnion(x, ls) || In(x, src)
    {
      if InUnion(x, after) {
        var j :| 0 <= j < |after| && In(x, after[j]);
        assert j < |ls| ==> In(x, ls[j]);
      }
      if InUnion(x, ls) {
        var j :| 0 <= j < |ls| && In(x, ls[j]);
        assert In(x, after[j]);
      }
      if In(x, src) {
        assert In(x, after[|ls|]);
      }
    }
  }

  // ----- enumeration -----

  /** The progression with its elements up to `location` dropped. */
  function Beyond(l: Location, location: nat): (r: Location)
    requires l.inc > 0 || l.offset > location
    ensures r.inc == l.inc && r.offset > location && r.offset >= l.offset
    ensures r.offset == l.offset || r.offset <= location + l.inc
    decreases if l.offset <= location then location - l.offset + 1 else 0
  {
    if l.offset > location then l else Beyond(Location(l.offset + l.inc, l.inc), location)
  }

  lemma {:induction false} BeyondKeeps(l: Location, location: nat, x: nat)
    requires l.inc > 0 || l.offset > location
    ensures x > location ==> (In(x, Beyond(l, location)) <==> In(x, l))
    ensures In(Beyond(l, location).offset, l)
    ensures In(x, l) && x > location ==> x >= Beyond(l, location).offset
    decreases if l.offset <= location then location - l.offset + 1 else 0
  {
    if l.offset <= location {
      var next := Location(l.offset + l.inc, l.inc);
      BeyondKeeps(next, location, x);
      FirstStep(l, x);
      FirstStep(l, Beyond(l, location).offset);
    }
  }

  lemma FirstStep(l: Location, x: nat)
    requires l.inc > 0
    ensures In(x, l) <==> x == l.offset || In(x, Location(l.offset + l.inc, l.inc))
  {
    if In(x, l) && x != l.offset {
      MultiplesApart(0, x - l.offset, l.inc);
      ModAdd(x - l.offset, l.inc, l.inc);
    }
    if x >= l.offset + l.inc && (x - l.offset - l.inc) % l.inc == 0 {
      ModAdd(x - l.offset - l.inc, l.inc, l.inc);
    }
  }

  /** Every progression moved past `location`. */
  function Advanced(ls: seq<Location>, location: nat): (r: seq<Location>)
    requires forall i :: 0 <= i < |ls| ==> ls[i].inc > 0 || ls[i].offset > location
    ensures |r| == |ls| && forall i :: 0 <= i < |r| ==> r[i] == Beyond(ls[i], location)
  {
    seq(|ls|, i requires 0 <= i < |ls| => Beyond(ls[i], location))
  }

  /** Nothing above `location` is lost or gained. */
  lemma AdvancedKeepsUnion(ls: seq<Location>, location: nat, x: nat)
    requires forall i :: 0 <= i < |ls| ==> ls[i].inc > 0 || ls[i].offset > location
    requires x > location
    ensures InUnion(x, Advanced(ls, location)) <==> InUnion(x, ls)
  {
    var r := Advanced(ls, location);
    forall i | 0 <= i < |ls|
      ensures In(x, r[i]) <==> In(x, ls[i])
    {
      BeyondKeeps(ls[i], location, x);
    }
  }

  /** The smallest offset of a non-empty set of progressions: the least element of their union. */
  function Least(ls: seq<Location>): (m: nat)
    requires |ls| > 0
    ensures forall i :: 0 <= i < |ls| ==> m <= ls[i].offset
    ensures exists i :: 0 <= i < |ls| && ls[i].offset == m
  {
    if |ls| == 1 then ls[0].offset
    else
      var front := ls[..|ls| - 1];
      var last := ls[|ls| - 1].offset;
      var m := Least(front);
      assert forall i :: 0 <= i < |front| ==> front[i] == ls[i];
      if last < m then last else m
  }

  /** r is the least element of the union above `location`. */
  ghost predicate IsNext(r: nat, ls: seq<Location>, location: nat) {
    r > location && InUnion(r, ls) && forall x :: location < x < r ==> !InUnion(x, ls)
  }

  lemma LeastIsNext(ls: seq<Location>, location: nat)
    requires |ls| > 0 && forall i :: 0 <= i < |ls| ==> ls[i].inc > 0 || ls[i].offset > location
    ensures IsNext(Least(Advanced(ls, location)), ls, location)
  {
    var adv := Advanced(ls, location);
    var r := Least(adv);
    var i :| 0 <= i < |adv| && adv[i].offset == r;
    BeyondKeeps(ls[i], location, r);
    assert In(r, ls[i]);
    forall x: nat | location < x < r
      ensures !InUnion(x, ls)
    {
      AdvancedKeepsUnion(ls, location, x);
      assert forall j :: 0 <= j < |adv| ==> x < adv[j].offset;
    }
  }

  lemma LeastUnique(ls: seq<Location>, k: nat)
    requires k < |ls| && forall i :: 0 <= i < |ls| ==> ls[k].offset <= ls[i].offset
    ensures Least(ls) == ls[k].offset
  {
  }

  lemma AllAboveKept(ls: seq<Location>, location: nat)
    requires forall i :: 0 <= i < |ls| ==> ls[i].inc > 0 || ls[i].offset > location
    ensures forall x :: x > location ==> (InUnion(x, Advanced(ls, location)) <==> InUnion(x, ls))
  {
    forall x: nat | x > location
      ensures InUnion(x, Advanced(ls, location)) <==> InUnion(x, ls)
    {
      AdvancedKeepsUnion(ls, location, x);
    }
  }

  /** The first `n` results of feeding search_location_update its own result, from `location`. */
  function Enumerated(ls: seq<Location>, location: nat, n: nat): (e: seq<nat>)
    requires |ls| > 0 && AllPositive(ls)
    ensures |e| == n
    decreases n
  {
    if n == 0 then []
    else
      var adv := Advanced(ls, location);
      var r := Least(adv);
      [r] + Enumerated(adv, r, n - 1)
  }

  ghost predicate StrictlyIncreasing(e: seq<nat>) {
    forall i, j :: 0 <= i < j < |e| ==> e[i] < e[j]
  }

  ghost predicate InsideUnion(e: seq<nat>, ls: seq<Location>, location: nat) {
    forall i :: 0 <= i < |e| ==> e[i] > location && InUnion(e[i], ls)
  }

  /** The enumeration is strictly increasing and stays inside the union, above the start. */
  lemma {:induction false} EnumerationIncreases(ls: seq<Location>, location: nat, n: nat)
    requires |ls| > 0 && AllPositive(ls)
    ensures StrictlyIncreasing(Enumerated(ls, location, n)) && InsideUnion(Enumerated(ls, location, n), ls, location)
    decreases n
  {
    hide In, InUnion, Beyond, Least;
    if n > 0 {
      var adv := Advanced(ls, location);
      var r := Least(adv);
      var e, rest := Enumerated(ls, location, n), Enumerated(adv, r, n - 1);
      LeastIsNext(ls, location);
      EnumerationIncreases(adv, r, n - 1);
      assert e == [r] + rest;
      forall i | 0 <= i < |rest|
        ensures rest[i] > location && InUnion(rest[i], ls)
      {
        AdvancedKeepsUnion(ls, location, rest[i]);
      }
    }
  }

  /** The enumeration skips nothing: it lists exactly the elements of the union above the start. */
  lemma {:induction false} EnumeratesUnion(ls: seq<Location>, location: nat, n: nat, x: nat)
    requires |ls| > 0 && AllPositive(ls) && n > 0
    requires location < x <= Enumerated(ls, location, n)[n - 1]
    ensures InUnion(x, ls) <==> x in Enumerated(ls, location, n)
    decreases n
  {
    hide In, InUnion, Beyond, Least;
    var adv := Advanced(ls, location);
    var r := Least(adv);
    var e, rest := Enumerated(ls, location, n), Enumerated(adv, r, n - 1);
    LeastIsNext(ls, location);
    EnumerationIncreases(ls, location, n);
    if InUnion(x, ls) {
      AdvancedKeepsUnion(ls, location, x);
      assert x >= r;
      if x > r {
        EnumerationIncreases(adv, r, n - 1);
        assert n > 1 && e[n - 1] == rest[n - 2];
        EnumeratesUnion(adv, r, n - 1, x);
        assert x in rest;
      } else {
        assert e[0] == x;
      }
    }
  }

  // ----- the static table -----

  datatype Geometry = Geometry(headsPerCylinder: nat, sectorsPerHead: nat, sectorSize: nat)

  /** CHS_to_offset; S counts from 1, and -1 means the sector before. */
  function Chs(c: nat, h: nat, s: int, g: Geometry): nat {
    var sector := (c * g.headsPerCylinder + h) * g.sectorsPerHead + (if s > 0 then s - 1 else s);
    if sector < 0 then 0 else sector * g.sectorSize
  }

  ghost predicate Comparable(ls: seq<Location>, src: Location) {
    exists i :: 0 <= i < |ls| && (Replaces(src, ls[i]) || Covers(ls[i], src))
  }

  class SearchLocations {
    const info: array<Location>
    var nbr: nat

    ghost predicate Valid()
      reads this
    {
      info.Length == SEARCH_LOCATION_MAX + 1 && nbr <= SEARCH_LOCATION_MAX
    }

    /** search_location_info[0 .. search_location_nbr) */
    ghost function Registered(): seq<Location>
      requires Valid()
      reads this, info
    {
      info[..nbr]
    }

    constructor ()
      ensures Valid() && Registered() == [] && fresh(info)
    {
      info := new Location[SEARCH_LOCATION_MAX + 1](_ => Location(0, 0));
      nbr := 0;
    }

    /** update_location: the progression in the slot after the last one joins the set. */
    method UpdateLocation()
      requires Valid()
      modifies this`nbr, info
      ensures Valid() && old(nbr) <= nbr <= old(nbr) + 1
      ensures old(nbr) < SEARCH_LOCATION_MAX || old(Comparable(Registered(), info[nbr])) ==>
                forall x :: InUnion(x, Registered()) <==> old(InUnion(x, Registered())) || In(x, old(info[nbr]))
      ensures old(nbr) == SEARCH_LOCATION_MAX && !old(Comparable(Registered(), info[nbr])) ==>
                Registered() == old(Registered())
      ensures old(info[nbr].inc) > 0 && old(AllPositive(Registered())) ==> AllPositive(Registered())
    {
      hide In, InUnion;
      var src := info[nbr];
      ghost var was := Registered();
      if src.inc == 0 {
        for i := 0 to nbr
          invariant info[..] == old(info[..])
          invariant forall j :: 0 <= j < i ==> !Replaces(src, was[j]) && !Covers(was[j], src)
        {
          if info[i].offset == src.offset {
            CoverUnion(was, i, src);
            return;
          }
        }
        Append(src);
        return;
      }
      for i := 0 to nbr
        invariant info[..] == old(info[..])
        invariant forall j :: 0 <= j < i ==> !Replaces(src, was[j]) && !Covers(was[j], src)
      {
        var cur := info[i];
        assert cur == was[i];
        if cur.offset == src.offset && cur.inc >= src.inc && cur.inc % src.inc == 0 {
          info[i] := cur.(inc := src.inc);
          Replaced(was, i, src);
          return;
        }
        if cur.inc == 0 {
          if cur.offset == src.offset {
            info[i] := cur.(inc := src.inc);
            Replaced(was, i, src);
            return;
          }
        } else {
          if cur.offset == src.offset && src.inc >= cur.inc && src.inc % cur.inc == 0 {
            CoverUnion(was, i, src);
            return;
          }
          if cur.inc == src.inc && cur.offset >= src.offset && (cur.offset - src.offset) % cur.inc == 0 {
            info[i] := cur.(offset := src.offset);
            Replaced(was, i, src);
            return;
          }
          if cur.inc == src.inc && src.offset >= cur.offset && (src.offset - cur.offset) % cur.inc == 0 {
            CoverUnion(was, i, src);
            return;
          }
        }
      }
      Append(src);
    }

    lemma Replaced(was: seq<Location>, i: nat, src: Location)
      requires Valid() && i < nbr == |was| && Replaces(src, was[i]) && Registered() == was[i := src]
      ensures forall x :: InUnion(x, Registered()) <==> InUnion(x, was) || In(x, src)
    {
      ReplaceUnion(was, i, src);
    }

    /** if (search_location_nbr < SEARCH_LOCATION_MAX) search_location_nbr++; */
    method Append(ghost src: Location)
      requires Valid() && src == info[nbr]
      modifies this`nbr
      ensures Valid() && nbr == if old(nbr) < SEARCH_LOCATION_MAX then old(nbr) + 1 else old(nbr)
      ensures old(nbr) < SEARCH_LOCATION_MAX ==>
                && Registered() == old(Registered()) + [src]
                && forall x :: InUnion(x, Registered()) <==> old(InUnion(x, Registered())) || In(x, src)
      ensures old(nbr) == SEARCH_LOCATION_MAX ==> Registered() == old(Registered())
    {
      if nbr < SEARCH_LOCATION_MAX {
        ghost var was := Registered();
        nbr := nbr + 1;
        AppendUnion(was, src);
        assert Registered() == was + [src];
      }
    }

    /** while (search_location_info[i].offset <= location) offset += inc; */
    method AdvanceEntry(i: nat, location: nat)
      requires i < info.Length && (info[i].inc > 0 || info[i].offset > location)
      modifies info
      ensures info[i] == Beyond(old(info[i]), location)
      ensures forall j :: 0 <= j < info.Length && j != i ==> info[j] == old(info[j])
    {
      while info[i].offset <= location
        invariant info[i].inc > 0 || info[i].offset > location
        invariant Beyond(info[i], location) == Beyond(old(info[i]), location)
        invariant forall j :: 0 <= j < info.Length && j != i ==> info[j] == old(info[j])
        decreases location - info[i].offset
      {
        info[i] := info[i].(offset := info[i].offset + info[i].inc);
      }
    }

    /** search_location_update: move every progression past `location`; the least offset is the next
        element of the union.  It loops for ever on an entry with inc 0 that is not past `location`. */
    method SearchLocationUpdate(location: nat) returns (min: nat)
      requires Valid()
      requires forall i :: 0 <= i < nbr ==> info[i].inc > 0 || info[i].offset > location
      requires forall i :: 0 <= i < nbr ==> info[i].offset <= MAX_UINT64 && location + info[i].inc <= MAX_UINT64
      modifies info
      ensures Valid() && Registered() == Advanced(old(Registered()), location)
      ensures nbr == 0 ==> min == MAX_UINT64
      ensures nbr > 0 ==> min == Least(Registered()) && IsNext(min, old(Registered()), location)
      ensures forall x :: x > location ==> (InUnion(x, Registered()) <==> old(InUnion(x, Registered())))
    {
      hide In, InUnion, Beyond, Least;
      ghost var was := Registered();
      ghost var adv := Advanced(was, location);
      min := MAX_UINT64;
      ghost var least := 0;
      for i := 0 to nbr
        invariant forall j :: 0 <= j < i ==> info[j] == adv[j]
        invariant forall j :: i <= j < nbr ==> info[j] == was[j]
        invariant i == 0 ==> min == MAX_UINT64
        invariant forall j :: 0 <= j < i ==> min <= adv[j].offset
        invariant i > 0 ==> least < i && min == adv[least].offset
      {
        AdvanceEntry(i, location);
        if i == 0 || min > info[i].offset {
          least := i;
        }
        if min > info[i].offset {
          min := info[i].offset;
        }
      }
      assert Registered() == adv;
      AllAboveKept(was, location);
      if nbr > 0 {
        LeastIsNext(was, location);
        LeastUnique(adv, least);
      }
    }

    /** What the table holds after `done` was registered on top of `base`: nothing else, and all of it unless the table
        was full. */
    ghost predicate Accumulated(base: seq<Location>, done: seq<Location>, whole: bool)
      reads this, info
    {
      && Valid()
      && (forall x :: InUnion(x, base) ==> InUnion(x, Registered()))
      && (forall x :: InUnion(x, Registered()) ==> InUnion(x, base) || InUnion(x, done))
      && (whole ==> forall x :: InUnion(x, done) ==> InUnion(x, Registered()))
    }

    /** search_location_info[search_location_nbr] = {offset, inc}; update_location(); */
    method Register(offset: nat, inc: nat, ghost base: seq<Location>, ghost done: seq<Location>, ghost whole: bool)
      requires Accumulated(base, done, whole)
      modifies this`nbr, info
      ensures Accumulated(base, done + [Location(offset, inc)], whole && old(nbr) < SEARCH_LOCATION_MAX)
      ensures old(nbr) <= nbr <= old(nbr) + 1
      ensures inc > 0 && old(AllPositive(Registered())) ==> AllPositive(Registered())
    {
      hide In, InUnion;
      info[nbr] := Location(offset, inc);
      UpdateLocation();
      AppendUnion(done, Location(offset, inc));
    }

    /** search_location_init, entry by entry.  On i386 with fast_mode <= 1 the entry for head 2,
        sector 1 is written to the free slot but overwritten before it is registered. */
    method SearchLocationInit(g: Geometry, i386: bool, boundary: nat, fastMode: int)
      requires Valid() && Sensible(g, boundary)
      modifies this`nbr, info
      ensures Accumulated(old(Registered()), InitList(g, i386, boundary, fastMode),
                          old(nbr) + 20 <= SEARCH_LOCATION_MAX)
      ensures (i386 || boundary > 0) && old(AllPositive(Registered())) ==> AllPositive(Registered())
    {
      hide In, InUnion, Chs, BootList, BackupList, SuperblockList, Accumulated, Sensible;
      ghost var base := Registered();
      NothingAccumulated(base);
      InitBoot(g, i386, boundary, fastMode, base);
      ghost var whole := old(nbr) + 3 <= SEARCH_LOCATION_MAX;
      ghost var d := BootList(g, i386, boundary, fastMode);
      if fastMode > 0 {
        ghost var more := whole && nbr + 6 <= SEARCH_LOCATION_MAX;
        InitBackups(g, i386, boundary, base, d, whole);
        ghost var all := more && nbr + 9 <= SEARCH_LOCATION_MAX;
        InitAllSuperblocks(g, i386, boundary, base, d + BackupList(g, i386, boundary), more);
        assert d + (BackupList(g, i386, boundary) + SuperblockList(g, i386, boundary, 3))
               == d + BackupList(g, i386, boundary) + SuperblockList(g, i386, boundary, 3);
        LessThanWhole(base, InitList(g, i386, boundary, fastMode), all, old(nbr) + 20 <= SEARCH_LOCATION_MAX);
      } else {
        assert d + [] == d;
        LessThanWhole(base, d, whole, old(nbr) + 20 <= SEARCH_LOCATION_MAX);
      }
    }

    lemma NothingAccumulated(base: seq<Location>)
      requires Valid() && base == Registered()
      ensures Accumulated(base, [], true)
    {
      NothingInEmptyUnion();
    }

    lemma LessThanWhole(base: seq<Location>, done: seq<Location>, whole: bool, claimed: bool)
      requires Accumulated(base, done, whole) && (claimed ==> whole)
      ensures Accumulated(base, done, claimed)
    {
    }

    /** The loop over the block sizes. */
    method InitAllSuperblocks(g: Geometry, i386: bool, boundary: nat, ghost base: seq<Location>,
                              ghost done: seq<Location>,
                              ghost whole: bool)
      requires Accumulated(base, done, whole) && Sensible(g, boundary)
      modifies this`nbr, info
      ensures Accumulated(base, done + SuperblockList(g, i386, boundary, 3),
                          whole && old(nbr) + 9 <= SEARCH_LOCATION_MAX)
      ensures (i386 || boundary > 0) && old(AllPositive(Registered())) ==> AllPositive(Registered())
    {
      hide In, InUnion, Chs, SuperblocksAt, Sensible;
      ghost var d, w := done, whole;
      for k := 0 to 3
        invariant Accumulated(base, d, w) && nbr <= old(nbr) + 3 * k
        invariant whole && old(nbr) + 9 <= SEARCH_LOCATION_MAX ==> w
        invariant d == done + SuperblockList(g, i386, boundary, k)
        invariant (i386 || boundary > 0) && old(AllPositive(Registered())) ==> AllPositive(Registered())
      {
        ghost var room := w && nbr + 3 <= SEARCH_LOCATION_MAX;
        InitSuperblocks(g, i386, boundary, k, base, d, w);
        w := room;
        assert d + SuperblocksAt(g, i386, boundary, k)
               == done + (SuperblockList(g, i386, boundary, k) + SuperblocksAt(g, i386, boundary, k));
        d := d + SuperblocksAt(g, i386, boundary, k);
      }
      LessThanWhole(base, d, w, whole && old(nbr) + 9 <= SEARCH_LOCATION_MAX);
    }

    method InitBoot(g: Geometry, i386: bool, boundary: nat, fastMode: int, ghost base: seq<Location>)
      requires Accumulated(base, [], true) && Sensible(g, boundary)
      modifies this`nbr, info
      ensures Accumulated(base, BootList(g, i386, boundary, fastMode), old(nbr) + 3 <= SEARCH_LOCATION_MAX)
      ensures old(nbr) <= nbr <= old(nbr) + 3
      ensures (i386 || boundary > 0) && old(AllPositive(Registered())) ==> AllPositive(Registered())
    {
      hide In, InUnion, Chs;
      ChsSensible(g, boundary);
      if i386 {
        ghost var d, w := BootHeads(g, fastMode), true;
        if fastMode > 1 {
          w := w && nbr < SEARCH_LOCATION_MAX;
          Register(Chs(0, 0, 1, g), Chs(0, 1, 0, g), base, [], true);
          assert [] + [Location(Chs(0, 0, 1, g), Chs(0, 1, 0, g))] == d;
        } else {
          ghost var w1 := nbr < SEARCH_LOCATION_MAX;
          Register(Chs(0, 0, 1, g), Chs(1, 0, 0, g), base, [], true);
          ghost var first := [] + [Location(Chs(0, 0, 1, g), Chs(1, 0, 0, g))];
          w := w1 && nbr < SEARCH_LOCATION_MAX;
          Register(Chs(0, 1, 1, g), Chs(1, 0, 0, g), base, first, w1);
          assert first + [Location(Chs(0, 1, 1, g), Chs(1, 0, 0, g))] == d;
          ghost var was := Registered();
          info[nbr] := Location(Chs(0, 2, 1, g), Chs(1, 0, 0, g));
          assert Registered() == was;
        }
        ghost var all := w && nbr < SEARCH_LOCATION_MAX;
        Register(0, 2048 * 512, base, d, w);
        LessThanWhole(base, BootList(g, i386, boundary, fastMode), all, old(nbr) + 3 <= SEARCH_LOCATION_MAX);
      } else {
        ghost var all := nbr < SEARCH_LOCATION_MAX;
        Register(0, boundary, base, [], true);
        assert [] + [Location(0, boundary)] == BootList(g, i386, boundary, fastMode);
        LessThanWhole(base, BootList(g, i386, boundary, fastMode), all, old(nbr) + 3 <= SEARCH_LOCATION_MAX);
      }
    }

    /** The FAT32 and then the NTFS and HFS backup boot sectors. */
    method InitBackups(g: Geometry, i386: bool, boundary: nat, ghost base: seq<Location>, ghost done: seq<Location>,
                       ghost whole: bool)
      requires Accumulated(base, done, whole) && Sensible(g, boundary)
      modifies this`nbr, info
      ensures Accumulated(base, done + BackupList(g, i386, boundary), whole && old(nbr) + 6 <= SEARCH_LOCATION_MAX)
      ensures old(nbr) <= nbr <= old(nbr) + 6
      ensures (i386 || boundary > 0) && old(AllPositive(Registered())) ==> AllPositive(Registered())
    {
      hide In, InUnion, Chs, Accumulated;
      ChsSensible(g, boundary);
      ghost var d, w := done, whole;
      if i386 {
        d, w := RegisterNext(Chs(0, 0, 7, g), Chs(1, 0, 0, g), base, d, w);
        d, w := RegisterNext(Chs(0, 1, 7, g), Chs(1, 0, 0, g), base, d, w);
        d, w := RegisterNext(Chs(0, 2, 7, g), Chs(1, 0, 0, g), base, d, w);
      } else {
        d, w := RegisterNext(Chs(0, 0, 7, g), boundary, base, d, w);
      }
      d, w := RegisterNext(Chs(0, 0, 7, g), 2048 * 512, base, d, w);
      if i386 {
        d, w := RegisterNext(Chs(1, 0, -1, g), Chs(1, 0, 0, g), base, d, w);
      } else {
        d, w := RegisterNext((boundary - 512) % 0x1_0000_0000, boundary, base, d, w);
      }
      d, w := RegisterNext((2048 - 1) * 512, 2048 * 512, base, d, w);
      assert d == done + BackupList(g, i386, boundary);
      LessThanWhole(base, d, w, whole && old(nbr) + 6 <= SEARCH_LOCATION_MAX);
    }

    /** The ext2 backup superblocks for the k-th block size. */
    method InitSuperblocks(g: Geometry, i386: bool, boundary: nat, k: nat, ghost base: seq<Location>,
                           ghost done: seq<Location>, ghost whole: bool)
      requires Accumulated(base, done, whole) && Sensible(g, boundary)
      modifies this`nbr, info
      ensures Accumulated(base, done + SuperblocksAt(g, i386, boundary, k),
                          whole && old(nbr) + 3 <= SEARCH_LOCATION_MAX)
      ensures old(nbr) <= nbr <= old(nbr) + 3
      ensures (i386 || boundary > 0) && old(AllPositive(Registered())) ==> AllPositive(Registered())
    {
      hide In, InUnion, Chs, SuperblockOffset;
      ChsSensible(g, boundary);
      var hdOffset := SuperblockOffset(k);
      ghost var d, w := done, whole;
      if i386 {
        d, w := RegisterNext(Chs(0, 0, 1, g) + hdOffset, Chs(1, 0, 0, g), base, d, w);
        d, w := RegisterNext(Chs(0, 1, 1, g) + hdOffset, Chs(1, 0, 0, g), base, d, w);
        d, w := RegisterNext(Chs(0, 2, 1, g) + hdOffset, Chs(1, 0, 0, g), base, d, w);
      } else {
        d, w := RegisterNext(Chs(0, 0, 1, g) + hdOffset, boundary, base, d, w);
      }
      assert d == done + SuperblocksAt(g, i386, boundary, k);
      LessThanWhole(base, d, w, whole && old(nbr) + 3 <= SEARCH_LOCATION_MAX);
    }

    method RegisterNext(offset: nat, inc: nat, ghost base: seq<Location>, ghost done: seq<Location>, ghost whole: bool)
      returns (ghost done': seq<Location>, ghost whole': bool)
      requires Accumulated(base, done, whole)
      modifies this`nbr, info
      ensures done' == done + [Location(offset, inc)] && whole' == (whole && old(nbr) < SEARCH_LOCATION_MAX)
      ensures Accumulated(base, done', whole') && old(nbr) <= nbr <= old(nbr) + 1
      ensures inc > 0 && old(AllPositive(Registered())) ==> AllPositive(Registered())
    {
      done', whole' := done + [Location(offset, inc)], whole && nbr < SEARCH_LOCATION_MAX;
      Register(offset, inc, base, done, whole);
    }
  }

  // ----- the progressions search_location_init registers -----

  lemma NothingInEmptyUnion()
    ensures forall x :: !InUnion(x, [])
  {
  }

  /** A geometry with at least one head and sector, and a 32-bit location_boundary. */
  predicate Sensible(g: Geometry, boundary: nat) {
    g.headsPerCylinder > 0 && g.sectorsPerHead > 0 && g.sectorSize > 0 && boundary < 0x1_0000_0000
  }

  lemma ChsSensible(g: Geometry, boundary: nat)
    requires Sensible(g, boundary)
    ensures Chs(1, 0, 0, g) > 0 && Chs(0, 1, 0, g) > 0
  {
    assert g.headsPerCylinder * g.sectorsPerHead >= 1;
  }

  function BootHeads(g: Geometry, fastMode: int): seq<Location> {
    if fastMode > 1 then [Location(Chs(0, 0, 1, g), Chs(0, 1, 0, g))]
    else [Location(Chs(0, 0, 1, g), Chs(1, 0, 0, g)), Location(Chs(0, 1, 1, g), Chs(1, 0, 0, g))]
  }

  function BootList(g: Geometry, i386: bool, boundary: nat, fastMode: int): seq<Location> {
    if i386 then BootHeads(g, fastMode) + [Location(0, 2048 * 512)] else [Location(0, boundary)]
  }

  function BackupList(g: Geometry, i386: bool, boundary: nat): seq<Location> {
    (if i386 then
       [Location(Chs(0, 0, 7, g), Chs(1, 0, 0, g)), Location(Chs(0, 1, 7, g), Chs(1, 0, 0, g)),
        Location(Chs(0, 2, 7, g), Chs(1, 0, 0, g)), Location(Chs(0, 0, 7, g), 2048 * 512),
        Location(Chs(1, 0, -1, g), Chs(1, 0, 0, g))]
     else
       [Location(Chs(0, 0, 7, g), boundary), Location(Chs(0, 0, 7, g), 2048 * 512),
        Location((boundary - 512) % 0x1_0000_0000, boundary)])
    + [Location((2048 - 1) * 512, 2048 * 512)]
  }

  /** Where the k-th kind of ext2 backup superblock lies: 1024-, 2048- or 4096-byte blocks. */
  function SuperblockOffset(k: nat): nat {
    var block := if k == 0 then 1024 else if k == 1 then 2048 else 4096;
    3 * block * 8 * block + (if k == 0 then 2 * 512 else 0)
  }

  function SuperblocksAt(g: Geometry, i386: bool, boundary: nat, k: nat): seq<Location> {
    var start := SuperblockOffset(k);
    if i386 then
      [Location(Chs(0, 0, 1, g) + start, Chs(1, 0, 0, g)), Location(Chs(0, 1, 1, g) + start, Chs(1, 0, 0, g)),
       Location(Chs(0, 2, 1, g) + start, Chs(1, 0, 0, g))]
    else [Location(Chs(0, 0, 1, g) + start, boundary)]
  }

  function SuperblockList(g: Geometry, i386: bool, boundary: nat, n: nat): seq<Location> {
    if n == 0 then [] else SuperblockList(g, i386, boundary, n - 1) + SuperblocksAt(g, i386, boundary, n - 1)
  }

  function InitList(g: Geometry, i386: bool, boundary: nat, fastMode: int): seq<Location> {
    BootList(g, i386, boundary, fastMode)
    + (if fastMode > 0 then BackupList(g, i386, boundary) + SuperblockList(g, i386, boundary, 3) else [])
  }

  // ----- the progression that is overwritten -----

  /** One of o, o + d, o + 2 d, ... */
  predicate Reaches(x: nat, o: nat, d: nat)
    requires d > 0
  {
    x >= o && (x - o) % d == 0
  }

  /** What fast_mode 1 adds to the boot sectors, for tracks of t bytes, cylinders of c bytes and sectors of s bytes. */
  predicate BackupReaches(x: nat, s: nat, t: nat, c: nat)
    requires c > 0
  {
    || Reaches(x, 6 * s, c) || Reaches(x, t + 6 * s, c) || Reaches(x, 2 * t + 6 * s, c) || Reaches(x, 6 * s, MEBI)
    || (c >= s && Reaches(x, c - s, c)) || Reaches(x, MEBI - 512, MEBI)
    || SuperblockReaches(x, t, c, 25_166_848) || SuperblockReaches(x, t, c, 100_663_296)
    || SuperblockReaches(x, t, c, 402_653_184)
  }

  /** A superblock that far behind head 0, 1 or 2. */
  predicate SuperblockReaches(x: nat, t: nat, c: nat, start: nat)
    requires c > 0
  {
    Reaches(x, start, c) || Reaches(x, t + start, c) || Reaches(x, 2 * t + start, c)
  }

  const MEBI: nat := 2048 * 512

  /** Bytes in a track and in a cylinder. */
  function Track(g: Geometry): nat {
    g.sectorsPerHead * g.sectorSize
  }

  function Cylinder(g: Geometry): nat {
    g.headsPerCylinder * Track(g)
  }

  /** Addresses in bytes. */
  lemma ChsIs(c: nat, h: nat, g: Geometry)
    requires g.sectorSize > 0
    ensures Chs(c, h, 1, g) == c * Cylinder(g) + h * Track(g) && Chs(c, h, 0, g) == Chs(c, h, 1, g)
    ensures Chs(c, h, 7, g) == Chs(c, h, 1, g) + 6 * g.sectorSize
    ensures c * Cylinder(g) >= g.sectorSize && h == 0 ==> Chs(c, h, -1, g) == c * Cylinder(g) - g.sectorSize
  {
    var track := c * g.headsPerCylinder + h;
    calc {
      track * g.sectorsPerHead * g.sectorSize;
      track * Track(g);
      c * g.headsPerCylinder * Track(g) + h * Track(g);
      c * Cylinder(g) + h * Track(g);
    }
    var sector := track * g.sectorsPerHead;
    assert (sector + 6) * g.sectorSize == sector * g.sectorSize + 6 * g.sectorSize;
    assert (sector - 1) * g.sectorSize == sector * g.sectorSize - g.sectorSize;
    if sector == 0 {
      assert sector * g.sectorSize == 0;
    }
  }

  lemma UnionOfTwo(x: nat, a: Location, b: Location)
    ensures InUnion(x, [a, b]) <==> In(x, a) || In(x, b)
  {
    assert [a, b][0] == a && [a, b][1] == b;
  }

  lemma UnionOfConcat(x: nat, a: seq<Location>, b: seq<Location>)
    ensures InUnion(x, a + b) <==> InUnion(x, a) || InUnion(x, b)
  {
    forall i | 0 <= i < |b| && In(x, b[i])
      ensures InUnion(x, a + b)
    {
      assert In(x, (a + b)[|a| + i]);
    }
    forall i | 0 <= i < |a| && In(x, a[i])
      ensures InUnion(x, a + b)
    {
      assert In(x, (a + b)[i]);
    }
  }

  lemma UnionOfThree(x: nat, a: Location, b: Location, c: Location)
    ensures InUnion(x, [a, b, c]) <==> In(x, a) || In(x, b) || In(x, c)
  {
    assert [a, b, c] == [a, b] + [c];
    UnionOfConcat(x, [a, b], [c]);
    UnionOfTwo(x, a, b);
    assert [c][0] == c;
  }

  /** What an i386 disk's boot sectors come to. */
  lemma BootUnion(g: Geometry, boundary: nat, fastMode: int, x: nat)
    requires Sensible(g, boundary)
    ensures Track(g) > 0 && Cylinder(g) > 0
    ensures InUnion(x, BootList(g, true, boundary, fastMode)) <==>
              || (fastMode > 1 && Reaches(x, 0, Track(g)))
              || (fastMode <= 1 && (Reaches(x, 0, Cylinder(g)) || Reaches(x, Track(g), Cylinder(g))))
              || Reaches(x, 0, MEBI)
  {
    hide InUnion;
    Positive(g);
    ChsIs(0, 0, g);
    ChsIs(0, 1, g);
    ChsIs(1, 0, g);
    var t, c := Track(g), Cylinder(g);
    if fastMode > 1 {
      assert BootList(g, true, boundary, fastMode) == [Location(0, t), Location(0, MEBI)];
      UnionOfTwo(x, Location(0, t), Location(0, MEBI));
    } else {
      assert BootList(g, true, boundary, fastMode) == [Location(0, c), Location(t, c), Location(0, MEBI)];
      UnionOfThree(x, Location(0, c), Location(t, c), Location(0, MEBI));
    }
  }

  lemma Positive(g: Geometry)
    requires Sensible(g, 0)
    ensures Track(g) >= g.sectorSize && Track(g) > 0 && Cylinder(g) >= Track(g)
  {
    MulAtLeast(g.sectorsPerHead, g.sectorSize);
    MulAtLeast(g.headsPerCylinder, Track(g));
  }

  /** What fast_mode 1 adds to them. */
  lemma BackupUnion(g: Geometry, boundary: nat, x: nat)
    requires Sensible(g, boundary)
    ensures Cylinder(g) > 0
    ensures InUnion(x, BackupList(g, true, boundary) + SuperblockList(g, true, boundary, 3))
            <==> BackupReaches(x, g.sectorSize, Track(g), Cylinder(g))
  {
    hide InUnion, SuperblockReaches;
    Positive(g);
    var s, t, c := g.sectorSize, Track(g), Cylinder(g);
    ChsIs(0, 0, g);
    ChsIs(0, 1, g);
    ChsIs(0, 2, g);
    ChsIs(1, 0, g);
    var heads := [Location(6 * s, c), Location(t + 6 * s, c), Location(2 * t + 6 * s, c)];
    var rest := [Location(6 * s, MEBI), Location(c - s, c), Location(MEBI - 512, MEBI)];
    assert BackupList(g, true, boundary) == heads + rest;
    UnionOfConcat(x, heads, rest);
    UnionOfThree(x, Location(6 * s, c), Location(t + 6 * s, c), Location(2 * t + 6 * s, c));
    UnionOfThree(x, Location(6 * s, MEBI), Location(c - s, c), Location(MEBI - 512, MEBI));
    UnionOfConcat(x, BackupList(g, true, boundary), SuperblockList(g, true, boundary, 3));
    SuperblocksUnion(g, boundary, x);
    SuperblockOffsets();
  }

  lemma SuperblockOffsets()
    ensures SuperblockOffset(0) == 25_166_848 && SuperblockOffset(1) == 100_663_296
    ensures SuperblockOffset(2) == 402_653_184
  {
  }

  lemma UnionOfOne(x: nat, a: Location)
    ensures InUnion(x, [a]) <==> In(x, a)
  {
    assert [a][0] == a;
  }

  /** Disks that are not of the i386 kind: a grid, and with fast_mode 1 or more its backup sectors and superblocks. */
  lemma OtherUnion(g: Geometry, boundary: nat, fastMode: int, x: nat)
    requires Sensible(g, boundary) && boundary > 0
    ensures InUnion(x, InitList(g, false, boundary, fastMode)) <==>
              || Reaches(x, 0, boundary)
              || (fastMode > 0 &&
                  (|| Reaches(x, 6 * g.sectorSize, boundary) || Reaches(x, 6 * g.sectorSize, 1_048_576)
                   || Reaches(x, (boundary - 512) % 0x1_0000_0000, boundary) || Reaches(x, 1_048_064, 1_048_576)
                   || Reaches(x, 25_166_848, boundary) || Reaches(x, 100_663_296, boundary)
                   || Reaches(x, 402_653_184, boundary)))
  {
    hide InUnion, SuperblockOffset;
    ChsIs(0, 0, g);
    SuperblockOffsets();
    var s, b: int := g.sectorSize, boundary;
    var first := [Location(0, b)];
    UnionOfOne(x, first[0]);
    if fastMode > 0 {
      var two := [Location(6 * s, b), Location(6 * s, MEBI)];
      var more := [Location((b - 512) % 0x1_0000_0000, b), Location(MEBI - 512, MEBI)];
      var supers := [Location(25_166_848, b), Location(100_663_296, b), Location(402_653_184, b)];
      assert BackupList(g, false, b) == two + more;
      OtherSuperblocks(g, b);
      UnionOfConcat(x, first, two + more + supers);
      UnionOfConcat(x, two + more, supers);
      UnionOfConcat(x, two, more);
      UnionOfTwo(x, two[0], two[1]);
      UnionOfTwo(x, more[0], more[1]);
      UnionOfThree(x, supers[0], supers[1], supers[2]);
    } else {
      assert InitList(g, false, b, fastMode) == first;
    }
  }

  lemma OtherSuperblocks(g: Geometry, boundary: nat)
    requires Sensible(g, boundary)
    ensures SuperblockList(g, false, boundary, 3)
            == [Location(25_166_848, boundary), Location(100_663_296, boundary), Location(402_653_184, boundary)]
  {
    hide SuperblockOffset;
    SuperblockOffsets();
    ChsIs(0, 0, g);
    assert SuperblockList(g, false, boundary, 0) == [];
    assert SuperblockList(g, false, boundary, 1) == [Location(25_166_848, boundary)];
    assert SuperblockList(g, false, boundary, 2) == [Location(25_166_848, boundary), Location(100_663_296, boundary)];
  }

  lemma SuperblocksUnion(g: Geometry, boundary: nat, x: nat)
    requires Sensible(g, boundary)
    ensures Cylinder(g) > 0
    ensures InUnion(x, SuperblockList(g, true, boundary, 3)) <==>
              exists k :: 0 <= k < 3 && SuperblockReaches(x, Track(g), Cylinder(g), SuperblockOffset(k))
  {
    hide InUnion, SuperblockReaches, SuperblocksAt, SuperblockOffset;
    NothingInEmptyUnion();
    Positive(g);
    for k := 0 to 3
      invariant InUnion(x, SuperblockList(g, true, boundary, k)) <==>
                  exists l :: 0 <= l < k && SuperblockReaches(x, Track(g), Cylinder(g), SuperblockOffset(l))
    {
      UnionOfConcat(x, SuperblockList(g, true, boundary, k), SuperblocksAt(g, true, boundary, k));
      SuperblockUnion(g, boundary, k, x);
    }
  }

  lemma SuperblockUnion(g: Geometry, boundary: nat, k: nat, x: nat)
    requires Sensible(g, boundary)
    ensures Cylinder(g) > 0
    ensures InUnion(x, SuperblocksAt(g, true, boundary, k))
            <==> SuperblockReaches(x, Track(g), Cylinder(g), SuperblockOffset(k))
  {
    hide InUnion, SuperblockOffset;
    Positive(g);
    var t, c, start := Track(g), Cylinder(g), SuperblockOffset(k);
    ChsIs(0, 0, g);
    ChsIs(0, 1, g);
    ChsIs(0, 2, g);
    ChsIs(1, 0, g);
    UnionOfThree(x, Location(start, c), Location(t + start, c), Location(2 * t + start, c));
  }

  /** The first sector of head 2 of cylinder k, which the source means to register for every k on an i386 disk, is a
      location exactly when head 2 falls on a head that is registered, or on the grid of 1 MiB, or, with fast_mode 1,
      on a backup sector. */
  lemma Head2Reached(g: Geometry, boundary: nat, fastMode: int, k: nat)
    requires Sensible(g, boundary)
    ensures Cylinder(g) > 0
    ensures var x := Chs(k, 2, 1, g);
            InUnion(x, InitList(g, true, boundary, fastMode)) <==>
              || fastMode > 1
              || g.headsPerCylinder <= 2
              || x % MEBI == 0
              || (fastMode == 1 && BackupReaches(x, g.sectorSize, Track(g), Cylinder(g)))
  {
    hide InUnion, BootList, BackupList, SuperblockList, BackupReaches;
    Positive(g);
    ChsIs(k, 2, g);
    var x, t, c, h := Chs(k, 2, 1, g), Track(g), Cylinder(g), g.headsPerCylinder;
    BootUnion(g, boundary, fastMode, x);
    BackupUnion(g, boundary, x);
    UnionOfConcat(x, BootList(g, true, boundary, fastMode),
                  BackupList(g, true, boundary) + SuperblockList(g, true, boundary, 3));
    assert BootList(g, true, boundary, fastMode) + [] == BootList(g, true, boundary, fastMode);
    HeadsApart(t, h, k);
    assert k * h * t + 2 * t == (k * h + 2) * t;
    ModOfMultiple(k * h + 2, t);
  }

  /** Track 2 of a cylinder of h tracks starts a cylinder, or track 1 of one, only if there are at most two tracks. */
  lemma HeadsApart(t: nat, h: nat, k: nat)
    requires t > 0 && h > 0
    ensures h * t > 0 && k * (h * t) == k * h * t
    ensures (k * (h * t) + 2 * t) % (h * t) == 0 || (k * (h * t) + t) % (h * t) == 0 <==> h <= 2
  {
    var c := h * t;
    MulAtLeast(h, t);
    if h == 1 {
      ModOfMultiple(k + 2, c);
      assert (k + 2) * c == k * c + 2 * t;
    } else if h == 2 {
      ModOfMultiple(k + 1, c);
      assert (k + 1) * c == k * c + 2 * t;
    } else {
      assert c == 2 * t + (h - 2) * t;
      MulAtLeast(h - 2, t);
      DivModUnique(k * c + 2 * t, k, c, 2 * t);
      DivModUnique(k * c + t, k, c, t);
    }
  }

  /** In the modes that look at few places, the whole progression is covered exactly when there are at most two heads or
      tracks and cylinders fit the grid. */
  lemma Head2Everywhere(g: Geometry, boundary: nat, fastMode: int)
    requires Sensible(g, boundary) && fastMode <= 0
    ensures (forall k: nat :: InUnion(Chs(k, 2, 1, g), InitList(g, true, boundary, fastMode))) <==>
              g.headsPerCylinder <= 2 || (2 * Track(g) % MEBI == 0 && Cylinder(g) % MEBI == 0)
  {
    hide InUnion, InitList;
    var t, c := Track(g), Cylinder(g);
    forall k: nat
      ensures Chs(k, 2, 1, g) == k * c + 2 * t
      ensures InUnion(Chs(k, 2, 1, g), InitList(g, true, boundary, fastMode)) <==>
                g.headsPerCylinder <= 2 || (k * c + 2 * t) % MEBI == 0
    {
      ChsIs(k, 2, g);
      Head2Reached(g, boundary, fastMode, k);
    }
    if 2 * t % MEBI == 0 && c % MEBI == 0 {
      forall k: nat
        ensures (k * c + 2 * t) % MEBI == 0
      {
        ModMul(c, k, MEBI);
        ModAdd(c * k, 2 * t, MEBI);
      }
    }
    if forall k: nat :: InUnion(Chs(k, 2, 1, g), InitList(g, true, boundary, fastMode)) {
      assert InUnion(Chs(0, 2, 1, g), InitList(g, true, boundary, fastMode));
      assert InUnion(Chs(1, 2, 1, g), InitList(g, true, boundary, fastMode));
      if g.headsPerCylinder > 2 {
        ModAdd(1 * c + 2 * t, 0 * c + 2 * t, MEBI);
      }
    }
  }

  /** With 255 heads, 63 sectors of 512 bytes and fast_mode 0 it is missed on the first cylinder. */
  lemma Head2IsMissed()
    ensures var g := Geometry(255, 63, 512);
            !InUnion(Chs(0, 2, 1, g), InitList(g, true, 0, 0))
  {
    Head2Reached(Geometry(255, 63, 512), 0, 0, 0);
  }
}
