/** src/disk/list_sort.c, lines 117-156, on sequences: what the array part[] of the bottom-up merge
    sort goes through.  The pointer algorithm in ListSort is proved to compute exactly this. */
module BinaryCounter {
  import opened ListOrder

  const MAX_LIST_LENGTH_BITS: nat := 20

  /** part[] and max_lev.  part[lev] is empty where the C array holds NULL. */
  datatype Counter<T> = Counter(part: seq<seq<T>>, maxLev: nat)

  /** The last slot is a sentinel that stays empty, and the highest used slot is max_lev. */
  ghost predicate Valid<T>(c: Counter<T>) {
    && |c.part| == MAX_LIST_LENGTH_BITS + 1
    && c.maxLev < MAX_LIST_LENGTH_BITS
    && forall lev :: c.maxLev < lev < |c.part| ==> |c.part[lev]| == 0
  }

  /** The inner loop: merge `cur` with every full slot from `lev` up, emptying them. */
  function Carry<T>(cmp: (T, T) -> int, part: seq<seq<T>>, lev: nat, cur: seq<T>): (r: (seq<seq<T>>, nat, seq<T>))
    requires lev < |part| && |part[|part| - 1]| == 0
    ensures |r.0| == |part| && lev <= r.1 < |part| && |r.0[r.1]| == 0
    ensures forall k :: lev <= k < r.1 ==> |part[k]| > 0 && |r.0[k]| == 0
    ensures forall k :: (0 <= k < lev || r.1 <= k < |part|) ==> r.0[k] == part[k]
    decreases |part| - lev
  {
    if |part[lev]| == 0 then (part, lev, cur)
    else
      var rest := part[lev := []];
      assert forall k :: lev < k < |part| ==> rest[k] == part[k];
      Carry(cmp, rest, lev + 1, Merged(cmp, part[lev], cur))
  }

  /** Where the carried list is stored, and the new max_lev. */
  function Slot(lev: nat, maxLev: nat): nat {
    if lev > maxLev && lev >= MAX_LIST_LENGTH_BITS then lev - 1 else lev
  }

  function Push<T>(cmp: (T, T) -> int, c: Counter<T>, x: T): (c': Counter<T>)
    requires Valid(c)
    ensures Valid(c')
    ensures |c.part[c.maxLev]| > 0 || c.maxLev == 0 ==> |c'.part[c'.maxLev]| > 0
  {
    var (part, lev, cur) := Carry(cmp, c.part, 0, [x]);
    CarryNonEmpty(cmp, c.part, 0, [x]);
    var slot := Slot(lev, c.maxLev);
    Counter(part[slot := cur], if lev > c.maxLev then slot else c.maxLev)
  }

  lemma {:induction false} CarryNonEmpty<T>(cmp: (T, T) -> int, part: seq<seq<T>>, lev: nat, cur: seq<T>)
    requires lev < |part| && |part[|part| - 1]| == 0 && |cur| > 0
    ensures |Carry(cmp, part, lev, cur).2| > 0
    decreases |part| - lev
  {
    if |part[lev]| > 0 {
      MergedMultiset(cmp, part[lev], cur);
      CarryNonEmpty(cmp, part[lev := []], lev + 1, Merged(cmp, part[lev], cur));
    }
  }

  /** The counter after the nodes `xs` have been taken off the list. */
  function PushAll<T>(cmp: (T, T) -> int, xs: seq<T>): (c: Counter<T>)
    ensures Valid(c)
    ensures |xs| == 0 ==> c.maxLev == 0
    ensures |c.part[c.maxLev]| > 0 <==> |xs| > 0
  {
    if |xs| == 0 then Counter(seq(MAX_LIST_LENGTH_BITS + 1, _ => []), 0)
    else Push(cmp, PushAll(cmp, xs[..|xs| - 1]), xs[|xs| - 1])
  }

  /** The merge of part[0..n), lowest slot last. */
  function Collapsed<T>(cmp: (T, T) -> int, part: seq<seq<T>>, n: nat): seq<T>
    requires n <= |part|
  {
    if n == 0 then []
    else if |part[n - 1]| == 0 then Collapsed(cmp, part, n - 1)
    else Merged(cmp, part[n - 1], Collapsed(cmp, part, n - 1))
  }

  function CounterSorted<T>(cmp: (T, T) -> int, xs: seq<T>): seq<T> {
    var c := PushAll(cmp, xs);
    Merged(cmp, c.part[c.maxLev], Collapsed(cmp, c.part, c.maxLev))
  }

  // ----- the counter holds the nodes it was given, in sorted runs, oldest run highest -----

  /** The runs of part[0..n) in age order: the highest slot holds the oldest nodes. */
  function OldestFirst<T>(part: seq<seq<T>>, n: nat): seq<T>
    requires n <= |part|
  {
    if n == 0 then [] else part[n - 1] + OldestFirst(part, n - 1)
  }

  ghost predicate SortedRuns<T>(cmp: (T, T) -> int, dom: set<T>, part: seq<seq<T>>) {
    forall k :: 0 <= k < |part| ==> Sorted(cmp, part[k]) && Within(part[k], dom)
  }

  lemma {:induction false} OldestFirstSkips<T>(part: seq<seq<T>>, m: nat, n: nat)
    requires m <= n <= |part|
    requires forall k :: m <= k < n ==> |part[k]| == 0
    ensures OldestFirst(part, n) == OldestFirst(part, m)
  {
    if m < n {
      OldestFirstSkips(part, m, n - 1);
    }
  }

  lemma {:induction false} OldestFirstEmpty<T>(part: seq<seq<T>>, n: nat)
    requires n <= |part|
    requires forall k :: 0 <= k < n ==> |part[k]| == 0
    ensures OldestFirst(part, n) == []
  {
    if n > 0 {
      OldestFirstEmpty(part, n - 1);
    }
  }

  lemma {:induction false} CarrySorted<T>(
      cmp: (T, T) -> int, dom: set<T>, part: seq<seq<T>>, lev: nat, cur: seq<T>)
    requires TotalPreorder(cmp, dom) && SortedRuns(cmp, dom, part)
    requires Sorted(cmp, cur) && Within(cur, dom)
    requires lev < |part| && |part[|part| - 1]| == 0
    ensures SortedRuns(cmp, dom, Carry(cmp, part, lev, cur).0)
    ensures Sorted(cmp, Carry(cmp, part, lev, cur).2) && Within(Carry(cmp, part, lev, cur).2, dom)
    decreases |part| - lev
  {
    if |part[lev]| > 0 {
      MergedSorted(cmp, dom, part[lev], cur);
      CarrySorted(cmp, dom, part[lev := []], lev + 1, Merged(cmp, part[lev], cur));
    }
  }

  /** Carrying moves the nodes of the emptied slots, in age order, into the carried run. */
  lemma {:induction false} CarryClass<T>(
      cmp: (T, T) -> int, dom: set<T>, g: T, part: seq<seq<T>>, lev: nat, cur: seq<T>)
    requires TotalPreorder(cmp, dom) && SortedRuns(cmp, dom, part) && g in dom
    requires Sorted(cmp, cur) && Within(cur, dom)
    requires lev < |part| && |part[|part| - 1]| == 0
    requires forall k :: 0 <= k < lev ==> |part[k]| == 0
    ensures Class(cmp, g, Carry(cmp, part, lev, cur).2)
         == Class(cmp, g, OldestFirst(part, Carry(cmp, part, lev, cur).1)) + Class(cmp, g, cur)
    decreases |part| - lev
  {
    hide Merged, Class, OldestFirst;
    if |part[lev]| == 0 {
      OldestFirstEmpty(part, lev);
      EmptyClass(cmp, g, OldestFirst(part, lev));
    } else {
      var run := part[lev];
      var part', cur' := part[lev := []], Merged(cmp, run, cur);
      MergedSorted(cmp, dom, run, cur);
      CarryClass(cmp, dom, g, part', lev + 1, cur');
      var n := Carry(cmp, part', lev + 1, cur').1;
      MergedClass(cmp, dom, g, run, cur);
      OldestFirstSplit(part, part', lev, n);
      ClassOfConcat(cmp, g, OldestFirst(part', n), run);
    }
  }

  lemma {:induction false} OldestFirstSplit<T>(part: seq<seq<T>>, part': seq<seq<T>>, lev: nat, n: nat)
    requires lev < n <= |part| && part' == part[lev := []]
    requires forall k :: 0 <= k < lev ==> |part[k]| == 0
    ensures OldestFirst(part, n) == OldestFirst(part', n) + part[lev]
  {
    if n == lev + 1 {
      OldestFirstEmpty(part, lev);
      OldestFirstEmpty(part', n);
    } else {
      OldestFirstSplit(part, part', lev, n - 1);
    }
  }

  lemma PushSorted<T>(cmp: (T, T) -> int, dom: set<T>, c: Counter<T>, x: T)
    requires TotalPreorder(cmp, dom) && Valid(c) && SortedRuns(cmp, dom, c.part) && x in dom
    ensures SortedRuns(cmp, dom, Push(cmp, c, x).part)
  {
    CarrySorted(cmp, dom, c.part, 0, [x]);
  }

  /** Storing the carried run leaves the nodes in age order, the new ones last. */
  lemma PushOldestFirst<T>(cmp: (T, T) -> int, c: Counter<T>, x: T)
    requires Valid(c)
    ensures var (part, lev, cur) := Carry(cmp, c.part, 0, [x]);
            && OldestFirst(Push(cmp, c, x).part, |c.part|) == Above(part, lev, |c.part|) + cur
            && OldestFirst(c.part, |c.part|) == Above(part, lev, |c.part|) + OldestFirst(c.part, lev)
  {
    var (part, lev, cur) := Carry(cmp, c.part, 0, [x]);
    PlaceContent(part, Slot(lev, c.maxLev), cur, lev, |part|);
    SplitAt(c.part, lev, |part|);
    AboveFrame(part, c.part, lev, |part|);
  }

  lemma PushClass<T>(cmp: (T, T) -> int, dom: set<T>, g: T, c: Counter<T>, x: T)
    requires TotalPreorder(cmp, dom) && Valid(c) && SortedRuns(cmp, dom, c.part) && x in dom && g in dom
    ensures Class(cmp, g, OldestFirst(Push(cmp, c, x).part, |c.part|))
         == Class(cmp, g, OldestFirst(c.part, |c.part|)) + Class(cmp, g, [x])
  {
    var (part, lev, cur) := Carry(cmp, c.part, 0, [x]);
    var top, low := Above(part, lev, |c.part|), OldestFirst(c.part, lev);
    PushOldestFirst(cmp, c, x);
    CarryClass(cmp, dom, g, c.part, 0, [x]);
    ClassOfConcat(cmp, g, top, cur);
    ClassOfConcat(cmp, g, top, low);
    ConcatAssociative(Class(cmp, g, top), Class(cmp, g, low), Class(cmp, g, [x]));
  }

  lemma ConcatAssociative<T>(a: seq<T>, b: seq<T>, c: seq<T>)
    ensures (a + b) + c == a + (b + c)
  {
  }

  /** The runs of part[m..n), oldest first. */
  function Above<T>(part: seq<seq<T>>, m: nat, n: nat): seq<T>
    requires m <= n <= |part|
  {
    if m == n then [] else part[n - 1] + Above(part, m, n - 1)
  }

  lemma {:induction false} SplitAt<T>(part: seq<seq<T>>, m: nat, n: nat)
    requires m <= n <= |part|
    ensures OldestFirst(part, n) == Above(part, m, n) + OldestFirst(part, m)
  {
    if m < n {
      SplitAt(part, m, n - 1);
    }
  }

  lemma {:induction false} AboveFrame<T>(p: seq<seq<T>>, q: seq<seq<T>>, m: nat, n: nat)
    requires m <= n <= |p| && n <= |q|
    requires forall k :: m <= k < n ==> p[k] == q[k]
    ensures Above(p, m, n) == Above(q, m, n)
  {
    if m < n {
      AboveFrame(p, q, m, n - 1);
    }
  }

  /** Storing a run in an otherwise empty prefix, at or one below the level the carry reached. */
  lemma PlaceContent<T>(part: seq<seq<T>>, slot: nat, cur: seq<T>, lev: nat, n: nat)
    requires slot < n == |part| && slot <= lev < n && lev <= slot + 1
    requires forall k :: 0 <= k <= lev ==> |part[k]| == 0
    ensures OldestFirst(part[slot := cur], n) == Above(part, lev, n) + cur
  {
    var after := part[slot := cur];
    SplitAt(after, slot + 1, n);
    OldestFirstEmpty(after, slot);
    assert OldestFirst(after, slot + 1) == cur + OldestFirst(after, slot);
    AboveFrame(after, part, slot + 1, n);
    if slot == lev {
      AboveExtends(part, lev, n);
    } else {
      assert slot + 1 == lev;
    }
  }

  lemma {:induction false} AboveExtends<T>(part: seq<seq<T>>, m: nat, n: nat)
    requires m < n <= |part| && |part[m]| == 0
    ensures Above(part, m, n) == Above(part, m + 1, n)
  {
    if m + 1 < n {
      AboveExtends(part, m, n - 1);
    }
  }

  lemma {:induction false} PushAllClass<T>(cmp: (T, T) -> int, dom: set<T>, g: T, xs: seq<T>)
    requires TotalPreorder(cmp, dom) && Within(xs, dom) && g in dom
    ensures SortedRuns(cmp, dom, PushAll(cmp, xs).part)
    ensures Class(cmp, g, OldestFirst(PushAll(cmp, xs).part, MAX_LIST_LENGTH_BITS + 1)) == Class(cmp, g, xs)
  {
    if |xs| == 0 {
      OldestFirstEmpty(PushAll(cmp, xs).part, MAX_LIST_LENGTH_BITS + 1);
    } else {
      var front, x := xs[..|xs| - 1], xs[|xs| - 1];
      assert xs == front + [x];
      PushAllClass(cmp, dom, g, front);
      PushSorted(cmp, dom, PushAll(cmp, front), x);
      PushClass(cmp, dom, g, PushAll(cmp, front), x);
      ClassOfConcat(cmp, g, front, [x]);
    }
  }

  lemma {:induction false} CollapsedClass<T>(cmp: (T, T) -> int, dom: set<T>, g: T, part: seq<seq<T>>, n: nat)
    requires TotalPreorder(cmp, dom) && SortedRuns(cmp, dom, part) && n <= |part| && g in dom
    ensures Sorted(cmp, Collapsed(cmp, part, n)) && Within(Collapsed(cmp, part, n), dom)
    ensures Class(cmp, g, Collapsed(cmp, part, n)) == Class(cmp, g, OldestFirst(part, n))
  {
    if n > 0 {
      CollapsedClass(cmp, dom, g, part, n - 1);
      var low := Collapsed(cmp, part, n - 1);
      MergedSorted(cmp, dom, part[n - 1], low);
      MergedClass(cmp, dom, g, part[n - 1], low);
      ClassOfConcat(cmp, g, part[n - 1], OldestFirst(part, n - 1));
    }
  }

  lemma CounterSortedClass<T>(cmp: (T, T) -> int, dom: set<T>, g: T, xs: seq<T>)
    requires TotalPreorder(cmp, dom) && Within(xs, dom) && g in dom
    ensures Sorted(cmp, CounterSorted(cmp, xs)) && Within(CounterSorted(cmp, xs), dom)
    ensures Class(cmp, g, CounterSorted(cmp, xs)) == Class(cmp, g, xs)
  {
    var c := PushAll(cmp, xs);
    var n := c.maxLev;
    PushAllClass(cmp, dom, g, xs);
    CollapsedClass(cmp, dom, g, c.part, n);
    MergedSorted(cmp, dom, c.part[n], Collapsed(cmp, c.part, n));
    MergedClass(cmp, dom, g, c.part[n], Collapsed(cmp, c.part, n));
    ClassOfConcat(cmp, g, c.part[n], OldestFirst(c.part, n));
    assert OldestFirst(c.part, n + 1) == c.part[n] + OldestFirst(c.part, n);
    OldestFirstSkips(c.part, n + 1, |c.part|);
  }

  /** The binary-counter merge sort is the stable insertion sort, for every length. */
  lemma CounterSortRefinesInsertionSort<T>(cmp: (T, T) -> int, dom: set<T>, xs: seq<T>)
    requires TotalPreorder(cmp, dom) && Within(xs, dom)
    ensures CounterSorted(cmp, xs) == InsertionSorted(cmp, xs)
    ensures Sorted(cmp, CounterSorted(cmp, xs))
    ensures SameClasses(cmp, dom, CounterSorted(cmp, xs), xs)
  {
    forall g | g in dom
      ensures Class(cmp, g, CounterSorted(cmp, xs)) == Class(cmp, g, xs)
    {
      CounterSortedClass(cmp, dom, g, xs);
    }
    if |xs| > 0 {
      assert xs[0] in dom;
      CounterSortedClass(cmp, dom, xs[0], xs);
    }
    InsertionSortedIsStableSort(cmp, dom, xs);
    StableSortUnique(cmp, dom, CounterSorted(cmp, xs), InsertionSorted(cmp, xs));
  }

  // ----- whatever the comparator answers, no node is lost or duplicated -----

  /** How often `x` occurs in part[0..n). */
  ghost function Copies<T>(part: seq<seq<T>>, n: nat, x: T): nat
    requires n <= |part|
  {
    if n == 0 then 0 else multiset(part[n - 1])[x] + Copies(part, n - 1, x)
  }

  lemma {:induction false} CopiesFrame<T>(p: seq<seq<T>>, q: seq<seq<T>>, n: nat, x: T)
    requires n <= |p| && n <= |q|
    requires forall k :: 0 <= k < n ==> p[k] == q[k]
    ensures Copies(p, n, x) == Copies(q, n, x)
  {
    if n > 0 {
      CopiesFrame(p, q, n - 1, x);
    }
  }

  lemma {:induction false} CopiesUpdate<T>(part: seq<seq<T>>, k: nat, s: seq<T>, n: nat, x: T)
    requires k < n <= |part|
    ensures Copies(part[k := s], n, x) + multiset(part[k])[x] == Copies(part, n, x) + multiset(s)[x]
  {
    if k == n - 1 {
      CopiesFrame(part, part[k := s], k, x);
    } else {
      CopiesUpdate(part, k, s, n - 1, x);
    }
  }

  lemma MergedCopies<T>(cmp: (T, T) -> int, xs: seq<T>, ys: seq<T>, x: T)
    ensures multiset(Merged(cmp, xs, ys))[x] == multiset(xs)[x] + multiset(ys)[x]
  {
    MergedMultiset(cmp, xs, ys);
  }

  lemma {:induction false} CarryCopies<T>(cmp: (T, T) -> int, part: seq<seq<T>>, lev: nat, cur: seq<T>, x: T)
    requires lev < |part| && |part[|part| - 1]| == 0
    ensures var r := Carry(cmp, part, lev, cur);
            Copies(r.0, |part|, x) + multiset(r.2)[x] == Copies(part, |part|, x) + multiset(cur)[x]
    decreases |part| - lev
  {
    if |part[lev]| > 0 {
      MergedCopies(cmp, part[lev], cur, x);
      CarryCopies(cmp, part[lev := []], lev + 1, Merged(cmp, part[lev], cur), x);
      CopiesUpdate(part, lev, [], |part|, x);
    }
  }

  lemma {:induction false} PushAllCopies<T>(cmp: (T, T) -> int, xs: seq<T>, x: T)
    ensures Copies(PushAll(cmp, xs).part, MAX_LIST_LENGTH_BITS + 1, x) == multiset(xs)[x]
  {
    var n := MAX_LIST_LENGTH_BITS + 1;
    if |xs| == 0 {
      NoCopies(PushAll(cmp, xs).part, 0, n, x);
    } else {
      var front, last := xs[..|xs| - 1], xs[|xs| - 1];
      assert xs == front + [last];
      PushAllCopies(cmp, front, x);
      var c := PushAll(cmp, front);
      var (part, lev, cur) := Carry(cmp, c.part, 0, [last]);
      CarryCopies(cmp, c.part, 0, [last], x);
      CopiesUpdate(part, Slot(lev, c.maxLev), cur, n, x);
    }
  }

  lemma {:induction false} NoCopies<T>(part: seq<seq<T>>, m: nat, n: nat, x: T)
    requires m <= n <= |part| && forall k :: m <= k < n ==> |part[k]| == 0
    ensures Copies(part, n, x) == Copies(part, m, x)
  {
    if m < n {
      NoCopies(part, m, n - 1, x);
    }
  }

  lemma CollapsedNone<T>(cmp: (T, T) -> int, part: seq<seq<T>>)
    ensures Collapsed(cmp, part, 0) == []
  {
  }

  lemma CollapsedNext<T>(cmp: (T, T) -> int, part: seq<seq<T>>, n: nat)
    requires n < |part|
    ensures Collapsed(cmp, part, n + 1)
            == if |part[n]| == 0 then Collapsed(cmp, part, n) else Merged(cmp, part[n], Collapsed(cmp, part, n))
  {
  }

  lemma {:induction false} CollapsedCopies<T>(cmp: (T, T) -> int, part: seq<seq<T>>, n: nat, x: T)
    requires n <= |part|
    ensures multiset(Collapsed(cmp, part, n))[x] == Copies(part, n, x)
  {
    hide Merged;
    if n > 0 {
      CollapsedCopies(cmp, part, n - 1, x);
      if |part[n - 1]| == 0 {
        assert part[n - 1] == [];
      } else {
        MergedCopies(cmp, part[n - 1], Collapsed(cmp, part, n - 1), x);
      }
    }
  }

  lemma SameCopies<T>(a: multiset<T>, b: multiset<T>)
    requires forall x :: a[x] == b[x]
    ensures a == b
  {
  }

  lemma CounterSortedMultiset<T>(cmp: (T, T) -> int, xs: seq<T>)
    ensures multiset(CounterSorted(cmp, xs)) == multiset(xs)
  {
    var c := PushAll(cmp, xs);
    var r := multiset(CounterSorted(cmp, xs));
    forall x
      ensures r[x] == multiset(xs)[x]
    {
      MergedCopies(cmp, c.part[c.maxLev], Collapsed(cmp, c.part, c.maxLev), x);
      PushAllCopies(cmp, xs, x);
      CollapsedCopies(cmp, c.part, c.maxLev, x);
      NoCopies(c.part, c.maxLev + 1, |c.part|, x);
    }
    SameCopies(r, multiset(xs));
  }
}
