/** src/disk/list_sort.c: td_list_sort on intrusive circular doubly linked lists. */
module ListSort {
  import opened ListOrder
  import opened BinaryCounter

  class ListHead {
    var next: ListHead?
    var prev: ListHead?

    constructor () {
      next, prev := null, null;
    }
  }

  /** The comparator sees the elements the nodes are embedded in, which sorting does not touch. */
  type Comparator = (ListHead, ListHead) -> int

  /** From `p` on, the next links visit exactly `s` and end in NULL. */
  ghost predicate Chain(p: ListHead?, s: seq<ListHead>)
    reads (set x | x in s)`next
  {
    if |s| == 0 then p == null else p == s[0] && Chain(s[0].next, s[1..])
  }

  function Around(head: ListHead, s: seq<ListHead>, i: int): ListHead {
    if 0 <= i < |s| then s[i] else head
  }

  /** The circular list through `head` holds exactly `s`; prev is the inverse of next. */
  ghost predicate Ring(head: ListHead, s: seq<ListHead>)
    reads head, s
  {
    && head !in s && Distinct(s)
    && head.next == Around(head, s, 0)
    && head.prev == Around(head, s, |s| - 1)
    && forall i {:trigger s[i]} :: 0 <= i < |s| ==>
        s[i].next == Around(head, s, i + 1) && s[i].prev == Around(head, s, i - 1)
  }

  ghost predicate Disjoint(xs: seq<ListHead>, ys: seq<ListHead>) {
    forall x :: x in xs ==> x !in ys
  }

  ghost predicate Inside(xs: seq<ListHead>, region: set<ListHead>) {
    forall x :: x in xs ==> x in region
  }

  /** The part of the result already linked: from `head` through `out`, of which `tail` is the last node. */
  ghost predicate Output(head: ListHead, out: seq<ListHead>, tail: ListHead)
    reads ({head} + set x | x in out)`next
  {
    && tail == Around(head, out, |out| - 1)
    && (|out| > 0 ==> head.next == out[0])
    && forall k {:trigger out[k]} :: 0 <= k < |out| - 1 ==> out[k].next == out[k + 1]
  }

  ghost predicate Apart(head: ListHead, out: seq<ListHead>, us: seq<ListHead>, vs: seq<ListHead>) {
    && Distinct(out) && Distinct(us) && Distinct(vs)
    && Disjoint(us, vs) && Disjoint(out, us) && Disjoint(out, vs)
    && head !in out && head !in us && head !in vs
  }

  lemma DistinctTail(s: seq<ListHead>)
    requires Distinct(s) && |s| > 0
    ensures Distinct(s[1..]) && s[0] !in s[1..]
    ensures forall x :: x in s <==> x == s[0] || x in s[1..]
  {
    assert s == [s[0]] + s[1..];
    forall i | 0 <= i < |s[1..]|
      ensures s[1..][i] != s[0]
    {
      assert s[1..][i] == s[i + 1];
    }
  }

  /** Moving the first node of `us` to the output. */
  lemma ApartStep(head: ListHead, out: seq<ListHead>, us: seq<ListHead>, vs: seq<ListHead>)
    requires Apart(head, out, us, vs) && |us| > 0
    ensures Apart(head, out + [us[0]], us[1..], vs)
  {
    DistinctTail(us);
    assert us[0] !in out && us[0] !in vs;
    assert Distinct(out + [us[0]]);
  }

  lemma ApartSwap(head: ListHead, out: seq<ListHead>, us: seq<ListHead>, vs: seq<ListHead>)
    requires Apart(head, out, us, vs)
    ensures Apart(head, out, vs, us)
  {
  }

  /** What one iteration of a merge loop keeps about the sequences involved. */
  ghost predicate Merging(cmp: Comparator, m: seq<ListHead>, head: ListHead, tail: ListHead,
                          out: seq<ListHead>, us: seq<ListHead>, vs: seq<ListHead>)
  {
    Apart(head, out, us, vs) && out + Merged(cmp, us, vs) == m && tail == Around(head, out, |out| - 1)
  }

  lemma MergingStep(cmp: Comparator, m: seq<ListHead>, head: ListHead, tail: ListHead,
                    out: seq<ListHead>, us: seq<ListHead>, vs: seq<ListHead>)
    requires Merging(cmp, m, head, tail, out, us, vs) && |us| > 0 && |vs| > 0
    ensures tail !in us && tail !in vs && us[0] !in out && vs[0] !in out
    ensures head !in out && Distinct(out)
    ensures cmp(us[0], vs[0]) <= 0 ==> Merging(cmp, m, head, us[0], out + [us[0]], us[1..], vs)
    ensures cmp(us[0], vs[0]) > 0 ==> Merging(cmp, m, head, vs[0], out + [vs[0]], us, vs[1..])
  {
    TailApart(head, out, tail, us, vs);
    if cmp(us[0], vs[0]) <= 0 {
      ApartStep(head, out, us, vs);
      ConcatAssociative(out, [us[0]], Merged(cmp, us[1..], vs));
    } else {
      ApartSwap(head, out, us, vs);
      ApartStep(head, out, vs, us);
      ApartSwap(head, out + [vs[0]], vs[1..], us);
      ConcatAssociative(out, [vs[0]], Merged(cmp, us, vs[1..]));
    }
  }

  lemma MergingEnd(cmp: Comparator, m: seq<ListHead>, head: ListHead, tail: ListHead,
                   out: seq<ListHead>, us: seq<ListHead>, vs: seq<ListHead>)
    requires Merging(cmp, m, head, tail, out, us, vs) && (|us| == 0 || |vs| == 0)
    ensures tail !in us && tail !in vs && head !in out && Distinct(out)
    ensures out + (if |us| > 0 then us else vs) == m
  {
    TailApart(head, out, tail, us, vs);
  }

  lemma MergingStart(cmp: Comparator, head: ListHead, xs: seq<ListHead>, ys: seq<ListHead>)
    requires Distinct(xs) && Distinct(ys) && Disjoint(xs, ys) && head !in xs && head !in ys
    ensures Merging(cmp, Merged(cmp, xs, ys), head, head, [], xs, ys)
  {
  }

  lemma TailApart(head: ListHead, out: seq<ListHead>, tail: ListHead, us: seq<ListHead>, vs: seq<ListHead>)
    requires Apart(head, out, us, vs) && tail == Around(head, out, |out| - 1)
    ensures tail !in us && tail !in vs
  {
    assert tail == head || tail in out;
  }

  /** Linking `tail` to a chain makes one chain of everything output so far and that chain. */
  lemma {:induction false} JoinChain(head: ListHead, out: seq<ListHead>, tail: ListHead, rest: seq<ListHead>)
    requires Output(head, out, tail) && Chain(tail.next, rest)
    ensures Chain(head.next, out + rest)
    decreases |out|
  {
    if |out| == 0 {
      assert out + rest == rest;
    } else {
      JoinChain(out[0], out[1..], tail, rest);
      assert (out + rest)[1..] == out[1..] + rest;
    }
  }

  /** tail->next = node; node = node->next: the step both merge loops take in either branch. */
  method Append(ghost head: ListHead, tail: ListHead, node: ListHead, ghost other: ListHead?,
                ghost out: seq<ListHead>, ghost us: seq<ListHead>, ghost vs: seq<ListHead>)
    returns (next: ListHead?)
    requires Output(head, out, tail) && Chain(node, us) && Chain(other, vs)
    requires head !in out && Distinct(out) && tail !in us && tail !in vs
    modifies tail`next
    ensures |us| > 0 && node == us[0] && Output(head, out + [node], node)
    ensures Chain(next, us[1..]) && Chain(other, vs)
  {
    tail.next := node;
    next := node.next;
  }

  /** tail->next = a ? a : b */
  method LinkRest(ghost head: ListHead, tail: ListHead, rest: ListHead?, ghost out: seq<ListHead>,
                  ghost rs: seq<ListHead>)
    requires Output(head, out, tail) && Chain(rest, rs)
    requires head !in out && Distinct(out) && tail !in rs
    modifies tail`next
    ensures Chain(head.next, out + rs)
  {
    tail.next := rest;
    JoinChain(head, out, tail, rs);
  }

  method Merge(cmp: Comparator, a0: ListHead?, b0: ListHead?,
               ghost xs: seq<ListHead>, ghost ys: seq<ListHead>, ghost region: set<ListHead>)
    returns (r: ListHead?)
    requires Chain(a0, xs) && Chain(b0, ys)
    requires Distinct(xs) && Distinct(ys) && Disjoint(xs, ys)
    requires Inside(xs, region) && Inside(ys, region)
    modifies region`next
    ensures Chain(r, Merged(cmp, xs, ys))
  {
    hide Merged, Merging, Distinct, Disjoint;
    ghost var us, vs, out := xs, ys, [];
    ghost var m := Merged(cmp, xs, ys);
    var head := new ListHead();
    var tail, a, b := head, a0, b0;
    MergingStart(cmp, head, xs, ys);
    while a != null && b != null
      invariant Chain(a, us) && Chain(b, vs)
      invariant Inside(us, region) && Inside(vs, region) && (tail == head || tail in region)
      invariant Merging(cmp, m, head, tail, out, us, vs)
      invariant Output(head, out, tail)
      decreases |us| + |vs|
    {
      MergingStep(cmp, m, head, tail, out, us, vs);
      // if equal, take 'a' -- important for sort stability
      if cmp(a, b) <= 0 {
        var next := Append(head, tail, a, b, out, us, vs);
        out, us := out + [us[0]], us[1..];
        tail, a := a, next;
      } else {
        var next := Append(head, tail, b, a, out, vs, us);
        out, vs := out + [vs[0]], vs[1..];
        tail, b := b, next;
      }
    }
    MergingEnd(cmp, m, head, tail, out, us, vs);
    LinkRest(head, tail, if a != null then a else b, out, if a != null then us else vs);
    r := head.next;
  }

  /** prev is the inverse of next along the first `n` nodes of `out`. */
  ghost predicate BackLinked(head: ListHead, out: seq<ListHead>, n: nat)
    reads (set x | x in out)`prev
  {
    n <= |out| && forall k {:trigger out[k]} :: 0 <= k < n ==> out[k].prev == Around(head, out, k - 1)
  }

  lemma BackLinkedExtends(head: ListHead, out: seq<ListHead>, more: seq<ListHead>, n: nat)
    requires BackLinked(head, out, n)
    ensures BackLinked(head, out + more, n)
  {
    forall k | 0 <= k < n
      ensures (out + more)[k].prev == Around(head, out + more, k - 1)
    {
      assert (out + more)[k] == out[k];
    }
  }

  /** tail->next = node; node->prev = tail; node = node->next */
  method AppendBoth(ghost head: ListHead, tail: ListHead, node: ListHead, ghost other: ListHead?,
                    ghost out: seq<ListHead>, ghost us: seq<ListHead>, ghost vs: seq<ListHead>)
    returns (next: ListHead?)
    requires Output(head, out, tail) && Chain(node, us) && Chain(other, vs)
    requires head !in out && Distinct(out) && tail !in us && tail !in vs && node !in out
    requires BackLinked(head, out, |out|)
    modifies tail`next, node`prev
    ensures |us| > 0 && node == us[0] && Output(head, out + [node], node)
    ensures Chain(next, us[1..]) && Chain(other, vs)
    ensures BackLinked(head, out + [node], |out| + 1)
  {
    hide Chain;
    ChainHead(node, us);
    tail.next := node;
    node.prev := tail;
    next := node.next;
    BackLinkedExtends(head, out, [node], |out|);
  }

  lemma ChainHead(p: ListHead, s: seq<ListHead>)
    requires Chain(p, s)
    ensures |s| > 0 && p == s[0] && Chain(p.next, s[1..])
  {
  }

  lemma {:induction false} ChainToRing(p: ListHead?, m: seq<ListHead>, k: nat)
    requires Chain(p, m) && k < |m|
    ensures p == m[0] && m[k].next == if k + 1 < |m| then m[k + 1] else null
  {
    if k > 0 {
      ChainToRing(m[0].next, m[1..], k - 1);
    }
  }

  /** The final do-while loop: every remaining prev link, then the two links that close the ring. */
  method RestoreBackLinks(cmp: Comparator, head: ListHead, first: ListHead, ghost m: seq<ListHead>, ghost n0: nat,
                          ghost region: set<ListHead>)
    requires n0 < |m| && Distinct(m) && head !in m && Inside(m, region) && head in region
    requires first == Around(head, m, n0 - 1)
    requires Chain(head.next, m) && BackLinked(head, m, n0)
    modifies region
    ensures Ring(head, m)
  {
    hide Ring, Chain, Distinct, BackLinked, NextLinked;
    ghost var n := n0;
    var tail := first;
    var again := true;
    ChainNextLinked(head, m);
    while again
      invariant n0 <= n <= |m| && (again <==> n < |m|)
      invariant tail == Around(head, m, n - 1)
      invariant NextLinked(head, m) && BackLinked(head, m, n)
      decreases |m| - n
    {
      var next, more := RestoreOne(cmp, head, tail, m, n, m[n]);
      tail, again := next, more;
      n := n + 1;
    }
    CloseRing(head, tail, m);
  }

  /** From head, the next links lead through m and end. */
  ghost predicate NextLinked(head: ListHead, m: seq<ListHead>)
    reads ({head} + set x | x in m)`next
  {
    && |m| > 0 && head.next == m[0]
    && forall k {:trigger m[k]} :: 0 <= k < |m| ==> m[k].next == if k + 1 < |m| then m[k + 1] else null
  }

  lemma ChainNextLinked(head: ListHead, m: seq<ListHead>)
    requires |m| > 0 && Chain(head.next, m)
    ensures NextLinked(head, m)
  {
    ChainToRing(head.next, m, 0);
    forall k {:trigger m[k]} | 0 <= k < |m|
      ensures m[k].next == if k + 1 < |m| then m[k + 1] else null
    {
      ChainToRing(head.next, m, k);
    }
  }

  /** One turn of the do-while loop, and whether there is another. */
  method RestoreOne(cmp: Comparator, head: ListHead, tail: ListHead, ghost m: seq<ListHead>, ghost n: nat,
                    ghost node: ListHead)
    returns (next: ListHead, more: bool)
    requires n < |m| && node == m[n] && Distinct(m) && head !in m && tail == Around(head, m, n - 1)
    requires NextLinked(head, m) && BackLinked(head, m, n)
    modifies node`prev
    ensures next == m[n] && (more <==> n + 1 < |m|)
    ensures NextLinked(head, m) && BackLinked(head, m, n + 1)
  {
    assert tail.next == m[n];
    next := tail.next;
    var _ := cmp(next, next);
    next.prev := tail;
    assert m[n].next == if n + 1 < |m| then m[n + 1] else null;
    more := next.next != null;
  }

  /** The two links that close the ring. */
  method CloseRing(head: ListHead, tail: ListHead, ghost m: seq<ListHead>)
    requires Distinct(m) && head !in m && NextLinked(head, m) && BackLinked(head, m, |m|)
    requires tail == Around(head, m, |m| - 1)
    modifies tail`next, head`prev
    ensures Ring(head, m)
  {
    tail.next := head;
    head.prev := tail;
  }

  lemma MergedInside(cmp: Comparator, head: ListHead, xs: seq<ListHead>, ys: seq<ListHead>, region: set<ListHead>)
    requires Distinct(xs) && Distinct(ys) && Disjoint(xs, ys)
    requires Inside(xs, region) && Inside(ys, region) && head !in xs && head !in ys
    ensures Distinct(Merged(cmp, xs, ys)) && Inside(Merged(cmp, xs, ys), region) && head !in Merged(cmp, xs, ys)
    ensures |Merged(cmp, xs, ys)| == |xs| + |ys|
  {
    MergedDistinct(cmp, xs, ys);
    MergedLength(cmp, xs, ys);
    forall x | x in Merged(cmp, xs, ys)
      ensures x in region && x != head
    {
      MergedMember(cmp, xs, ys, x);
    }
  }

  method MergeAndRestoreBackLinks(cmp: Comparator, head: ListHead, a0: ListHead?, b0: ListHead?,
                                  ghost xs: seq<ListHead>, ghost ys: seq<ListHead>, ghost region: set<ListHead>)
    requires Chain(a0, xs) && Chain(b0, ys)
    requires Distinct(xs) && Distinct(ys) && Disjoint(xs, ys) && |xs| > 0
    requires Inside(xs, region) && Inside(ys, region)
    requires head !in xs && head !in ys && head in region
    modifies region
    ensures Ring(head, Merged(cmp, xs, ys))
  {
    hide Merged, Merging, Distinct, Disjoint;
    ghost var us, vs, out := xs, ys, [];
    ghost var m := Merged(cmp, xs, ys);
    var tail, a, b := head, a0, b0;
    MergingStart(cmp, head, xs, ys);
    while a != null && b != null
      invariant Chain(a, us) && Chain(b, vs) && (a != null || b != null)
      invariant Inside(us, region) && Inside(vs, region) && tail in region
      invariant Merging(cmp, m, head, tail, out, us, vs)
      invariant Output(head, out, tail) && BackLinked(head, out, |out|)
      decreases |us| + |vs|
    {
      MergingStep(cmp, m, head, tail, out, us, vs);
      if cmp(a, b) <= 0 {
        var next := AppendBoth(head, tail, a, b, out, us, vs);
        out, us := out + [us[0]], us[1..];
        tail, a := a, next;
      } else {
        var next := AppendBoth(head, tail, b, a, out, vs, us);
        out, vs := out + [vs[0]], vs[1..];
        tail, b := b, next;
      }
    }
    MergingEnd(cmp, m, head, tail, out, us, vs);
    ghost var rest := if a != null then us else vs;
    LinkRest(head, tail, if a != null then a else b, out, rest);
    BackLinkedExtends(head, out, rest, |out|);
    MergedInside(cmp, head, xs, ys, region);
    RestoreBackLinks(cmp, head, tail, m, |out|, region);
  }

  // ----- the array part[] -----

  /** part[k] points to the chain P[k], for every k. */
  ghost predicate Stored(part: array<ListHead?>, P: seq<seq<ListHead>>)
    reads part, (set k, x | 0 <= k < |P| && x in P[k] :: x)`next
  {
    part.Length == |P| && forall k {:trigger P[k]} :: 0 <= k < |P| ==> Chain(part[k], P[k])
  }

  /** No node occurs twice in the runs P, the carried run and the rest of the list together. */
  ghost predicate Once(all: set<ListHead>, P: seq<seq<ListHead>>, cur: seq<ListHead>, rest: seq<ListHead>) {
    && Inside(cur, all) && Inside(rest, all) && (forall k :: 0 <= k < |P| ==> Inside(P[k], all))
    && forall x :: x in all ==> Copies(P, |P|, x) + multiset(cur)[x] + multiset(rest)[x] <= 1
  }

  lemma {:induction false} CopiesOfMember(P: seq<seq<ListHead>>, k: nat, n: nat, x: ListHead)
    requires k < n <= |P|
    ensures Copies(P, n, x) >= multiset(P[k])[x]
    ensures forall l :: 0 <= l < n && l != k ==> Copies(P, n, x) >= multiset(P[k])[x] + multiset(P[l])[x]
  {
    if k == n - 1 {
      forall l | 0 <= l < n - 1
        ensures Copies(P, n - 1, x) >= multiset(P[l])[x]
      {
        CopiesOfMember(P, l, n - 1, x);
      }
    } else {
      CopiesOfMember(P, k, n - 1, x);
    }
  }

  lemma OnceMeansApart(all: set<ListHead>, P: seq<seq<ListHead>>, cur: seq<ListHead>, rest: seq<ListHead>, k: nat)
    requires Once(all, P, cur, rest) && k < |P|
    ensures Distinct(P[k]) && Distinct(cur) && Disjoint(P[k], cur)
    ensures Inside(cur, all) && Inside(P[k], all) && Elems(P[k]) <= all && Elems(cur) <= all - Elems(rest)
    ensures Elems(P[k]) <= all - Elems(rest)
    ensures forall l, x :: 0 <= l < |P| && l != k && x in P[l] ==> x !in P[k]
    ensures forall l, x :: 0 <= l < |P| && x in P[l] ==> x !in cur
    ensures forall x :: x in rest ==> x !in cur && x !in P[k]
  {
    forall x
      ensures multiset(P[k])[x] <= 1 && multiset(cur)[x] <= 1
    {
      CopiesOfMember(P, k, |P|, x);
      assert x !in all ==> x !in P[k] && x !in cur;
    }
    DistinctMeansOnce(P[k]);
    DistinctMeansOnce(cur);
    forall l, x | 0 <= l < |P| && x in P[l]
      ensures x !in cur && (l != k ==> x !in P[k])
    {
      CopiesOfMember(P, l, |P|, x);
      assert x in multiset(P[l]);
      assert x !in multiset(cur);
      if l != k {
        assert x !in multiset(P[k]);
      }
    }
    forall x | x in rest
      ensures x !in cur && x !in P[k]
    {
      CopiesOfMember(P, k, |P|, x);
      assert x in multiset(rest);
      assert x !in multiset(cur) && x !in multiset(P[k]);
    }
  }

  lemma OnceAfterMerge(cmp: Comparator, all: set<ListHead>, P: seq<seq<ListHead>>, cur: seq<ListHead>,
                       rest: seq<ListHead>, k: nat)
    requires Once(all, P, cur, rest) && k < |P|
    ensures Once(all, P[k := []], Merged(cmp, P[k], cur), rest)
  {
    MergedMembers(cmp, P[k], cur);
    var P' := P[k := []];
    assert Inside(P[k], all);
    forall j | 0 <= j < |P'|
      ensures Inside(P'[j], all)
    {
      assert j != k ==> Inside(P[j], all);
    }
    forall x | x in all
      ensures Copies(P', |P'|, x) + multiset(Merged(cmp, P[k], cur))[x] + multiset(rest)[x] <= 1
    {
      assert Copies(P, |P|, x) + multiset(cur)[x] + multiset(rest)[x] <= 1;
      CopiesUpdate(P, k, [], |P|, x);
      MergedCopies(cmp, P[k], cur, x);
    }
    assert Inside(Merged(cmp, P[k], cur), all);
    assert Inside(rest, all);
  }

  ghost function Elems(xs: seq<ListHead>): set<ListHead> {
    set x | x in xs
  }

  /** cur = merge(cmp, part[lev], cur); part[lev] = NULL; */
  method MergeSlot(cmp: Comparator, part: array<ListHead?>, lev: nat, cur: ListHead?, ghost P: seq<seq<ListHead>>,
                   ghost C: seq<ListHead>, ghost rest: seq<ListHead>, ghost all: set<ListHead>)
    returns (r: ListHead?)
    requires lev < |P| && Stored(part, P) && Chain(cur, C) && Once(all, P, C, rest)
    modifies part, (Elems(P[lev]) + Elems(C))`next
    ensures Chain(r, Merged(cmp, P[lev], C)) && Stored(part, P[lev := []])
  {
    OnceMeansApart(all, P, C, rest, lev);
    r := Merge(cmp, part[lev], cur, P[lev], C, Elems(P[lev]) + Elems(C));
    part[lev] := null;
    forall k | 0 <= k < |P|
      ensures Chain(part[k], P[lev := []][k])
    {
      if k != lev {
        assert forall x :: x in P[k] ==> x !in Elems(P[lev]) + Elems(C);
      }
    }
  }

  /** for (lev = 0; part[lev]; lev++) { cur = merge(cmp, part[lev], cur); part[lev] = NULL; } */
  method CarryUp(cmp: Comparator, part: array<ListHead?>, cur0: ListHead?, ghost P0: seq<seq<ListHead>>,
                 ghost C0: seq<ListHead>, ghost rest: seq<ListHead>, ghost all: set<ListHead>)
    returns (cur: ListHead?, lev: nat)
    requires |P0| == MAX_LIST_LENGTH_BITS + 1 && |P0[|P0| - 1]| == 0
    requires Stored(part, P0) && Chain(cur0, C0) && Once(all, P0, C0, rest)
    modifies part, (all - Elems(rest))`next
    ensures lev == Carry(cmp, P0, 0, C0).1
    ensures Chain(cur, Carry(cmp, P0, 0, C0).2) && Stored(part, Carry(cmp, P0, 0, C0).0)
  {
    ghost var P, C := P0, C0;
    cur, lev := cur0, 0;
    while part[lev] != null
      invariant lev < |P| == |P0| && |P[|P| - 1]| == 0
      invariant Stored(part, P) && Chain(cur, C) && Once(all, P, C, rest)
      invariant Carry(cmp, P, lev, C) == Carry(cmp, P0, 0, C0)
      decreases |P| - lev
    {
      OnceMeansApart(all, P, C, rest, lev);
      OnceAfterMerge(cmp, all, P, C, rest, lev);
      assert |P[lev]| > 0;
      cur := MergeSlot(cmp, part, lev, cur, P, C, rest, all);
      P, C := P[lev := []], Merged(cmp, P[lev], C);
      lev := lev + 1;
    }
  }

  /** After `n` nodes have been taken off the list, every node is in exactly one place. */
  lemma CounterHoldsOnce(cmp: Comparator, nodes: seq<ListHead>, n: nat)
    requires Distinct(nodes) && n <= |nodes|
    ensures Once(Elems(nodes), PushAll(cmp, nodes[..n]).part, [], nodes[n..])
  {
    var P := PushAll(cmp, nodes[..n]).part;
    assert nodes == nodes[..n] + nodes[n..];
    DistinctMeansOnce(nodes);
    forall x
      ensures Copies(P, |P|, x) + multiset([])[x] + multiset(nodes[n..])[x] == multiset(nodes)[x]
    {
      PushAllCopies(cmp, nodes[..n], x);
    }
    forall k, x | 0 <= k < |P| && x in P[k]
      ensures x in nodes
    {
      CopiesOfMember(P, k, |P|, x);
      assert x in multiset(P[k]);
      assert Copies(P, |P|, x) + multiset([])[x] + multiset(nodes[n..])[x] == multiset(nodes)[x];
      assert x in multiset(nodes);
    }
  }

  lemma OnceNext(all: set<ListHead>, P: seq<seq<ListHead>>, rest: seq<ListHead>)
    requires Once(all, P, [], rest) && |rest| > 0
    ensures Once(all, P, [rest[0]], rest[1..])
    ensures rest[0] !in rest[1..] && forall k :: 0 <= k < |P| ==> rest[0] !in P[k]
  {
    assert rest == [rest[0]] + rest[1..];
    forall x | x in all
      ensures Copies(P, |P|, x) + multiset([rest[0]])[x] + multiset(rest[1..])[x] <= 1
    {
      assert Copies(P, |P|, x) + multiset([])[x] + multiset(rest)[x] <= 1;
    }
    forall k | 0 <= k < |P|
      ensures rest[0] !in P[k]
    {
      CopiesOfMember(P, k, |P|, rest[0]);
      assert rest[0] !in multiset(P[k]);
    }
    assert rest[0] !in multiset(rest[1..]);
  }

  /** One iteration of the first loop, for the node `cur0` that has been cut off the list. */
  method PushNode(cmp: Comparator, part: array<ListHead?>, maxLev: nat, cur0: ListHead,
                  ghost nodes: seq<ListHead>, ghost n: nat)
    returns (newMax: nat)
    requires n < |nodes| && Distinct(nodes) && cur0 == nodes[n] && cur0.next == null
    requires Stored(part, PushAll(cmp, nodes[..n]).part) && maxLev == PushAll(cmp, nodes[..n]).maxLev
    modifies part, (Elems(nodes) - Elems(nodes[n + 1..]))`next
    ensures Stored(part, PushAll(cmp, nodes[..n + 1]).part) && newMax == PushAll(cmp, nodes[..n + 1]).maxLev
  {
    hide Carry, Copies, Distinct, Disjoint, Inside, Once, Chain, Stored, PushAll;
    ghost var c := PushAll(cmp, nodes[..n]);
    CounterHoldsOnce(cmp, nodes, n);
    OnceNext(Elems(nodes), c.part, nodes[n..]);
    assert nodes[n..][1..] == nodes[n + 1..];
    SingleChain(cur0);
    var cur, lev := CarryUp(cmp, part, cur0, c.part, [cur0], nodes[n + 1..], Elems(nodes));
    newMax := maxLev;
    ghost var top := lev;
    if lev > maxLev {
      if lev >= MAX_LIST_LENGTH_BITS {
        // list passed to td_list_sort() too long for efficiency
        lev := lev - 1;
      }
      newMax := lev;
    }
    assert lev == Slot(top, maxLev);
    StoreRun(part, lev, cur, Carry(cmp, c.part, 0, [cur0]).0, Carry(cmp, c.part, 0, [cur0]).2);
    PushAllNext(cmp, nodes, n);
  }

  /** part[lev] = cur */
  method StoreRun(part: array<ListHead?>, lev: nat, cur: ListHead?, ghost P: seq<seq<ListHead>>, ghost C: seq<ListHead>)
    requires lev < |P| && Stored(part, P) && Chain(cur, C)
    modifies part
    ensures Stored(part, P[lev := C])
  {
    part[lev] := cur;
  }

  lemma SingleChain(x: ListHead)
    requires x.next == null
    ensures Chain(x, [x])
  {
  }

  lemma PushAllNext(cmp: Comparator, nodes: seq<ListHead>, n: nat)
    requires n < |nodes|
    ensures PushAll(cmp, nodes[..n + 1]) == Push(cmp, PushAll(cmp, nodes[..n]), nodes[n])
  {
    assert nodes[..n + 1][..n] == nodes[..n] && nodes[..n + 1][n] == nodes[n];
  }

  /** for (lev = 0; lev < max_lev; lev++) if (part[lev]) list = merge(cmp, part[lev], list); */
  method CollapseParts(cmp: Comparator, part: array<ListHead?>, maxLev: nat, ghost P: seq<seq<ListHead>>,
                       ghost all: set<ListHead>)
    returns (list: ListHead?)
    requires maxLev < |P| && Stored(part, P) && Once(all, P, [], [])
    modifies part, all`next
    ensures Chain(list, Collapsed(cmp, P, maxLev)) && Chain(part[maxLev], P[maxLev])
    ensures Distinct(Collapsed(cmp, P, maxLev)) && Distinct(P[maxLev])
    ensures Disjoint(P[maxLev], Collapsed(cmp, P, maxLev))
    ensures Inside(Collapsed(cmp, P, maxLev), all) && Inside(P[maxLev], all)
  {
    hide Merged, Copies, Distinct, Disjoint, Inside, Once, Collapsed;
    ghost var Q, C := P, [];
    CollapsedNone(cmp, P);
    list := null;
    var lev := 0;
    while lev < maxLev
      invariant 0 <= lev <= maxLev < |Q| == |P|
      invariant forall k :: lev <= k < |P| ==> Q[k] == P[k]
      invariant Stored(part, Q) && Chain(list, C) && Once(all, Q, C, [])
      invariant C == Collapsed(cmp, P, lev)
    {
      CollapsedNext(cmp, P, lev);
      if part[lev] != null {
        assert |Q[lev]| > 0;
        OnceMeansApart(all, Q, C, [], lev);
        OnceAfterMerge(cmp, all, Q, C, [], lev);
        list := MergeSlot(cmp, part, lev, list, Q, C, [], all);
        Q, C := Q[lev := []], Merged(cmp, Q[lev], C);
      }
      lev := lev + 1;
    }
    OnceMeansApart(all, Q, C, [], maxLev);
  }

  lemma {:induction false} LinksToChain(s: seq<ListHead>, k: nat)
    requires k <= |s|
    requires forall i {:trigger s[i]} :: 0 <= i < |s| ==> s[i].next == if i + 1 < |s| then s[i + 1] else null
    ensures Chain(if k < |s| then s[k] else null, s[k..])
    decreases |s| - k
  {
    if k < |s| {
      LinksToChain(s, k + 1);
      assert s[k..][1..] == s[k + 1..];
    }
  }

  /** cur = list; list = list->next; cur->next = NULL; */
  method Detach(cur: ListHead, ghost P: seq<seq<ListHead>>, part: array<ListHead?>, ghost rest: seq<ListHead>,
                ghost all: set<ListHead>)
    returns (list: ListHead?)
    requires |rest| > 0 && Chain(cur, rest) && Stored(part, P) && Once(all, P, [], rest)
    modifies cur`next
    ensures cur == rest[0] && cur.next == null && Chain(list, rest[1..]) && Stored(part, P)
  {
    OnceNext(all, P, rest);
    list := cur.next;
    cur.next := null;
  }

  /** while (list) { ... }: take the nodes one by one into part[]. */
  method TakeNodes(cmp: Comparator, part: array<ListHead?>, first: ListHead?, ghost nodes: seq<ListHead>)
    returns (maxLev: nat)
    requires Distinct(nodes) && Chain(first, nodes)
    requires part.Length == MAX_LIST_LENGTH_BITS + 1 && forall k :: 0 <= k < part.Length ==> part[k] == null
    modifies part, Elems(nodes)`next
    ensures Stored(part, PushAll(cmp, nodes).part) && maxLev == PushAll(cmp, nodes).maxLev
  {
    hide Carry, Push, Copies, Distinct, Disjoint, Inside, Once;
    var list := first;
    ghost var n := 0;
    maxLev := 0;
    assert nodes[0..] == nodes;
    while list != null
      invariant n <= |nodes| && Chain(list, nodes[n..])
      invariant Stored(part, PushAll(cmp, nodes[..n]).part) && maxLev == PushAll(cmp, nodes[..n]).maxLev
      decreases |nodes| - n
    {
      list, maxLev := TakeNode(cmp, part, maxLev, list, nodes, n);
      n := n + 1;
    }
    assert nodes[..n] == nodes;
  }

  /** One turn of the loop. */
  method TakeNode(cmp: Comparator, part: array<ListHead?>, maxLev: nat, cur: ListHead,
                  ghost nodes: seq<ListHead>, ghost n: nat)
    returns (list: ListHead?, newMax: nat)
    requires Distinct(nodes) && n <= |nodes| && Chain(cur, nodes[n..])
    requires Stored(part, PushAll(cmp, nodes[..n]).part) && maxLev == PushAll(cmp, nodes[..n]).maxLev
    modifies part, Elems(nodes)`next
    ensures n < |nodes| && Chain(list, nodes[n + 1..])
    ensures Stored(part, PushAll(cmp, nodes[..n + 1]).part) && newMax == PushAll(cmp, nodes[..n + 1]).maxLev
  {
    hide PushAll, Copies, Distinct, Disjoint, Inside, Once;
    CounterHoldsOnce(cmp, nodes, n);
    list := Detach(cur, PushAll(cmp, nodes[..n]).part, part, nodes[n..], Elems(nodes));
    assert nodes[n..][1..] == nodes[n + 1..];
    newMax := PushNode(cmp, part, maxLev, cur, nodes, n);
  }

  /** The chain of all nodes, cut open at the end, becomes the sorted ring. */
  method SortChain(cmp: Comparator, head: ListHead, ghost nodes: seq<ListHead>, ghost all: set<ListHead>)
    requires |nodes| > 0 && Distinct(nodes) && head !in nodes && Chain(head.next, nodes)
    requires all == Elems(nodes)
    modifies {head} + all
    ensures Ring(head, CounterSorted(cmp, nodes))
  {
    hide PushAll, Carry, Copies, Distinct, Disjoint, Once, Merged, Collapsed;
    var part := new ListHead?[MAX_LIST_LENGTH_BITS + 1](_ => null);
    var maxLev := TakeNodes(cmp, part, head.next, nodes);
    ghost var P := PushAll(cmp, nodes).part;
    assert Once(all, P, [], []) by {
      CounterHoldsOnce(cmp, nodes, |nodes|);
      assert nodes[..|nodes|] == nodes && nodes[|nodes|..] == [];
    }
    var list := CollapseParts(cmp, part, maxLev, P, all);
    MergeAndRestoreBackLinks(cmp, head, part[maxLev], list, P[maxLev], Collapsed(cmp, P, maxLev), {head} + all);
  }

  /** head->prev->next = NULL */
  method CutRing(head: ListHead, ghost nodes: seq<ListHead>)
    requires Ring(head, nodes) && |nodes| > 0
    modifies Elems(nodes)`next
    ensures Chain(head.next, nodes)
  {
    head.prev.next := null;
    LinksToChain(nodes, 0);
    assert nodes[0..] == nodes;
  }

  /** td_list_sort: for every comparator the ring afterwards holds the same nodes, in the order the
      binary counter gives them; for a total preorder that is the stable sort of the original order. */
  method TdListSort(cmp: Comparator, head: ListHead, ghost nodes: seq<ListHead>)
    requires Ring(head, nodes)
    modifies {head} + Elems(nodes)
    ensures Ring(head, CounterSorted(cmp, nodes))
    ensures multiset(CounterSorted(cmp, nodes)) == multiset(nodes)
    ensures TotalPreorder(cmp, Elems(nodes)) ==> Ring(head, InsertionSorted(cmp, nodes))
  {
    if head.next != head {
      CutRing(head, nodes);
      SortChain(cmp, head, nodes, Elems(nodes));
    } else {
      assert nodes == [];
    }
    CounterSortedMultiset(cmp, nodes);
    if TotalPreorder(cmp, Elems(nodes)) {
      CounterSortRefinesInsertionSort(cmp, Elems(nodes), nodes);
    }
  }
}
