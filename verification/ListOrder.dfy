/** Sequences ordered by a three-way comparator, as td_list_sort uses it: only the test
    `cmp(a, b) <= 0` matters.  Everything here is about values; the linked list is in ListSort. */
module ListOrder {

  /** `cmp(a, b) <= 0` is a total preorder on the elements of `dom`. */
  ghost predicate TotalPreorder<T>(cmp: (T, T) -> int, dom: set<T>) {
    && (forall a, b :: a in dom && b in dom ==> cmp(a, b) <= 0 || cmp(b, a) <= 0)
    && (forall a, b, c :: a in dom && b in dom && c in dom && cmp(a, b) <= 0 && cmp(b, c) <= 0 ==> cmp(a, c) <= 0)
  }

  ghost predicate Within<T>(s: seq<T>, dom: set<T>) {
    forall i :: 0 <= i < |s| ==> s[i] in dom
  }

  ghost predicate Sorted<T>(cmp: (T, T) -> int, s: seq<T>) {
    forall i, j :: 0 <= i < j < |s| ==> cmp(s[i], s[j]) <= 0
  }

  ghost predicate Distinct<T>(s: seq<T>) {
    forall i, j :: 0 <= i < j < |s| ==> s[i] != s[j]
  }

  predicate Equivalent<T>(cmp: (T, T) -> int, a: T, b: T) {
    cmp(a, b) <= 0 && cmp(b, a) <= 0
  }

  /** The elements of `s` that compare equal to `g`, in their order in `s`. */
  function Class<T>(cmp: (T, T) -> int, g: T, s: seq<T>): seq<T> {
    if |s| == 0 then []
    else if Equivalent(cmp, g, s[0]) then [s[0]] + Class(cmp, g, s[1..])
    else Class(cmp, g, s[1..])
  }

  /** Elements that compare equal come in the same order in `r` and in `s`. */
  ghost predicate SameClasses<T>(cmp: (T, T) -> int, dom: set<T>, r: seq<T>, s: seq<T>) {
    forall g :: g in dom ==> Class(cmp, g, r) == Class(cmp, g, s)
  }

  // ----- merge of two sorted runs; the left run wins ties -----

  function Merged<T>(cmp: (T, T) -> int, xs: seq<T>, ys: seq<T>): seq<T> {
    if |xs| == 0 then ys
    else if |ys| == 0 then xs
    else if cmp(xs[0], ys[0]) <= 0 then [xs[0]] + Merged(cmp, xs[1..], ys)
    else [ys[0]] + Merged(cmp, xs, ys[1..])
  }

  lemma {:induction false} MergedMultiset<T>(cmp: (T, T) -> int, xs: seq<T>, ys: seq<T>)
    ensures multiset(Merged(cmp, xs, ys)) == multiset(xs) + multiset(ys)
    ensures |Merged(cmp, xs, ys)| == |xs| + |ys|
    decreases |xs| + |ys|
  {
    if |xs| > 0 && |ys| > 0 {
      assert xs == [xs[0]] + xs[1..];
      assert ys == [ys[0]] + ys[1..];
      if cmp(xs[0], ys[0]) <= 0 {
        MergedMultiset(cmp, xs[1..], ys);
      } else {
        MergedMultiset(cmp, xs, ys[1..]);
      }
    }
  }

  lemma MergedLength<T>(cmp: (T, T) -> int, xs: seq<T>, ys: seq<T>)
    ensures |Merged(cmp, xs, ys)| == |xs| + |ys|
  {
    MergedMembers(cmp, xs, ys);
  }

  lemma MergedMember<T>(cmp: (T, T) -> int, xs: seq<T>, ys: seq<T>, x: T)
    requires x in Merged(cmp, xs, ys)
    ensures x in xs || x in ys
  {
    MergedMembers(cmp, xs, ys);
  }

  lemma MergedMembers<T>(cmp: (T, T) -> int, xs: seq<T>, ys: seq<T>)
    ensures |Merged(cmp, xs, ys)| == |xs| + |ys|
    ensures forall x :: x in Merged(cmp, xs, ys) <==> x in xs || x in ys
  {
    MergedMultiset(cmp, xs, ys);
    forall x
      ensures x in Merged(cmp, xs, ys) <==> x in xs || x in ys
    {
      assert x in multiset(Merged(cmp, xs, ys)) <==> x in multiset(xs) + multiset(ys);
    }
  }

  lemma {:induction false} DistinctMeansOnce<T>(s: seq<T>)
    ensures Distinct(s) <==> forall x :: multiset(s)[x] <= 1
  {
    if |s| > 0 {
      var t := s[1..];
      assert s == [s[0]] + t;
      DistinctMeansOnce(t);
      if Distinct(s) {
        assert forall i, j :: 0 <= i < j < |t| ==> t[i] == s[i + 1] && t[j] == s[j + 1];
        assert Distinct(t);
        assert s[0] !in t;
      }
      if forall x :: multiset(s)[x] <= 1 {
        forall x
          ensures multiset(t)[x] <= 1
        {
          assert multiset(s)[x] <= 1;
        }
        assert multiset(s)[s[0]] <= 1;
        assert s[0] !in t;
        forall i, j | 0 <= i < j < |s|
          ensures s[i] != s[j]
        {
          if i == 0 {
            assert s[j] == t[j - 1];
          } else {
            assert t[i - 1] != t[j - 1];
          }
        }
      }
    }
  }

  lemma SameMultisetDistinct<T>(r: seq<T>, s: seq<T>)
    requires multiset(r) == multiset(s)
    requires Distinct(s)
    ensures Distinct(r)
  {
    DistinctMeansOnce(r);
    DistinctMeansOnce(s);
  }

  lemma MergedDistinct<T>(cmp: (T, T) -> int, xs: seq<T>, ys: seq<T>)
    requires Distinct(xs) && Distinct(ys)
    requires forall x :: x in xs ==> x !in ys
    ensures Distinct(Merged(cmp, xs, ys))
  {
    var both := xs + ys;
    assert Distinct(both) by {
      forall i, j | 0 <= i < j < |both|
        ensures both[i] != both[j]
      {
        if i < |xs| <= j {
          assert both[i] in xs && both[j] in ys;
        }
      }
    }
    MergedMultiset(cmp, xs, ys);
    assert multiset(both) == multiset(xs) + multiset(ys);
    SameMultisetDistinct(Merged(cmp, xs, ys), both);
  }

  /** The lesser of two heads is below everything in either list. */
  lemma FirstIsLeast<T>(cmp: (T, T) -> int, dom: set<T>, xs: seq<T>, ys: seq<T>, x: T, y: T)
    requires TotalPreorder(cmp, dom) && Within(xs, dom) && Within(ys, dom) && Sorted(cmp, xs) && Sorted(cmp, ys)
    requires |xs| > 0 && |ys| > 0 && x == (if cmp(xs[0], ys[0]) <= 0 then xs[0] else ys[0])
    requires y in xs || y in ys
    ensures cmp(x, y) <= 0
  {
    assert xs[0] in xs && ys[0] in ys;
    assert cmp(x, xs[0]) <= 0 && cmp(x, ys[0]) <= 0;
    if y in xs {
      HeadIsLeast(cmp, dom, xs, y);
      assert cmp(xs[0], y) <= 0;
    } else {
      HeadIsLeast(cmp, dom, ys, y);
      assert cmp(ys[0], y) <= 0;
    }
  }

  lemma HeadIsLeast<T>(cmp: (T, T) -> int, dom: set<T>, xs: seq<T>, y: T)
    requires TotalPreorder(cmp, dom) && Within(xs, dom) && Sorted(cmp, xs) && y in xs
    ensures cmp(xs[0], y) <= 0
  {
    var k :| 0 <= k < |xs| && xs[k] == y;
    assert k == 0 || cmp(xs[0], xs[k]) <= 0;
  }

  lemma {:induction false} MergedSorted<T>(cmp: (T, T) -> int, dom: set<T>, xs: seq<T>, ys: seq<T>)
    requires TotalPreorder(cmp, dom) && Within(xs, dom) && Within(ys, dom)
    requires Sorted(cmp, xs) && Sorted(cmp, ys)
    ensures Sorted(cmp, Merged(cmp, xs, ys)) && Within(Merged(cmp, xs, ys), dom)
    decreases |xs| + |ys|
  {
    hide TotalPreorder;
    if |xs| > 0 && |ys| > 0 {
      var firstLeft := cmp(xs[0], ys[0]) <= 0;
      var (x, us, vs) := if firstLeft then (xs[0], xs[1..], ys) else (ys[0], xs, ys[1..]);
      MergedSorted(cmp, dom, us, vs);
      MergedMembers(cmp, us, vs);
      var m := Merged(cmp, us, vs);
      forall k | 0 <= k < |m|
        ensures cmp(x, m[k]) <= 0
      {
        assert m[k] in us || m[k] in vs;
        FirstIsLeast(cmp, dom, xs, ys, x, m[k]);
      }
    }
  }

  lemma {:induction false} ClassOfConcat<T>(cmp: (T, T) -> int, g: T, s: seq<T>, t: seq<T>)
    ensures Class(cmp, g, s + t) == Class(cmp, g, s) + Class(cmp, g, t)
  {
    if |s| == 0 {
      assert s + t == t;
    } else {
      assert (s + t)[1..] == s[1..] + t;
      ClassOfConcat(cmp, g, s[1..], t);
    }
  }

  lemma {:induction false} EmptyClass<T>(cmp: (T, T) -> int, g: T, s: seq<T>)
    requires forall i :: 0 <= i < |s| ==> !Equivalent(cmp, g, s[i])
    ensures Class(cmp, g, s) == []
  {
    if |s| > 0 {
      EmptyClass(cmp, g, s[1..]);
    }
  }

  lemma {:induction false} MergedClass<T>(cmp: (T, T) -> int, dom: set<T>, g: T, xs: seq<T>, ys: seq<T>)
    requires TotalPreorder(cmp, dom) && Within(xs, dom) && Within(ys, dom) && g in dom
    requires Sorted(cmp, xs)
    ensures Class(cmp, g, Merged(cmp, xs, ys)) == Class(cmp, g, xs) + Class(cmp, g, ys)
    decreases |xs| + |ys|
  {
    if |xs| > 0 && |ys| > 0 {
      var x0, y := xs[0], ys[0];
      if cmp(x0, y) <= 0 {
        MergedClass(cmp, dom, g, xs[1..], ys);
        var m := Merged(cmp, xs[1..], ys);
        assert ([xs[0]] + m)[1..] == m;
      } else {
        MergedClass(cmp, dom, g, xs, ys[1..]);
        var m := Merged(cmp, xs, ys[1..]);
        assert ([y] + m)[1..] == m;
        if Equivalent(cmp, g, y) {
          // y is strictly below every element of xs, so none of them is in the class of g
          forall i | 0 <= i < |xs|
            ensures !Equivalent(cmp, g, xs[i])
          {
            assert cmp(x0, xs[i]) <= 0 || i == 0;
            assert cmp(xs[i], y) <= 0 ==> cmp(x0, y) <= 0;
          }
          EmptyClass(cmp, g, xs);
        }
      }
    }
  }

  // ----- the reference: insertion sort, inserting after every element that is not greater -----

  function Inserted<T>(cmp: (T, T) -> int, s: seq<T>, x: T): seq<T> {
    if |s| == 0 then [x]
    else if cmp(s[0], x) <= 0 then [s[0]] + Inserted(cmp, s[1..], x)
    else [x] + s
  }

  function InsertionSorted<T>(cmp: (T, T) -> int, s: seq<T>): seq<T> {
    if |s| == 0 then []
    else Inserted(cmp, InsertionSorted(cmp, s[..|s| - 1]), s[|s| - 1])
  }

  lemma {:induction false} InsertedIsMerged<T>(cmp: (T, T) -> int, s: seq<T>, x: T)
    ensures Inserted(cmp, s, x) == Merged(cmp, s, [x])
  {
    if |s| > 0 {
      if cmp(s[0], x) <= 0 {
        InsertedIsMerged(cmp, s[1..], x);
      } else {
        assert [x][1..] == [];
        assert Merged(cmp, s, []) == s;
      }
    }
  }

  lemma {:induction false} InsertionSortedIsStableSort<T>(cmp: (T, T) -> int, dom: set<T>, s: seq<T>)
    requires TotalPreorder(cmp, dom) && Within(s, dom)
    ensures Sorted(cmp, InsertionSorted(cmp, s))
    ensures Within(InsertionSorted(cmp, s), dom)
    ensures SameClasses(cmp, dom, InsertionSorted(cmp, s), s)
  {
    if |s| > 0 {
      var front, x := s[..|s| - 1], s[|s| - 1];
      assert s == front + [x];
      var r := InsertionSorted(cmp, front);
      InsertionSortedIsStableSort(cmp, dom, front);
      InsertedIsMerged(cmp, r, x);
      MergedSorted(cmp, dom, r, [x]);
      forall g | g in dom
        ensures Class(cmp, g, InsertionSorted(cmp, s)) == Class(cmp, g, s)
      {
        MergedClass(cmp, dom, g, r, [x]);
        ClassOfConcat(cmp, g, front, [x]);
      }
    }
  }

  /** A stable sort is unique: the order between classes is fixed by the comparator and the order
      inside a class by stability. */
  lemma {:induction false} StableSortUnique<T>(cmp: (T, T) -> int, dom: set<T>, r: seq<T>, s: seq<T>)
    requires TotalPreorder(cmp, dom) && Within(r, dom) && Within(s, dom)
    requires Sorted(cmp, r) && Sorted(cmp, s)
    requires SameClasses(cmp, dom, r, s)
    ensures r == s
  {
    HeadInOwnClass(cmp, dom, r);
    HeadInOwnClass(cmp, dom, s);
    assert |r| == 0 <==> |s| == 0;
    if |r| > 0 {
      HeadsAgree(cmp, dom, r, s);
      forall g | g in dom
        ensures Class(cmp, g, r[1..]) == Class(cmp, g, s[1..])
      {
        assert Class(cmp, g, r) == Class(cmp, g, s);
        if Equivalent(cmp, g, r[0]) {
          assert Class(cmp, g, r)[1..] == Class(cmp, g, s)[1..];
        }
      }
      StableSortUnique(cmp, dom, r[1..], s[1..]);
      assert r == [r[0]] + r[1..] && s == [s[0]] + s[1..];
    }
  }

  lemma HeadInOwnClass<T>(cmp: (T, T) -> int, dom: set<T>, s: seq<T>)
    requires TotalPreorder(cmp, dom) && Within(s, dom)
    ensures |s| > 0 ==> s[0] in dom && |Class(cmp, s[0], s)| > 0 && Class(cmp, s[0], s)[0] == s[0]
  {
    assert |s| > 0 ==> s[0] in dom;
  }

  lemma HeadsAgree<T>(cmp: (T, T) -> int, dom: set<T>, r: seq<T>, s: seq<T>)
    requires TotalPreorder(cmp, dom) && Within(r, dom) && Within(s, dom)
    requires Sorted(cmp, r) && Sorted(cmp, s) && |r| > 0 && |s| > 0
    requires SameClasses(cmp, dom, r, s)
    ensures r[0] == s[0]
  {
    var a, b := r[0], s[0];
    assert a in dom && b in dom;
    assert Class(cmp, a, r)[0] == a;
    assert Class(cmp, a, s) == Class(cmp, a, r);
    ClassMember(cmp, a, s);
    assert a in s;
    assert Class(cmp, b, s)[0] == b;
    assert Class(cmp, b, r) == Class(cmp, b, s);
    ClassMember(cmp, b, r);
    assert b in r;
    assert cmp(a, b) <= 0 && cmp(b, a) <= 0 by {
      assert cmp(a, a) <= 0 && cmp(b, b) <= 0;
    }
    assert Class(cmp, a, s)[0] == b;
  }

  lemma {:induction false} ClassMember<T>(cmp: (T, T) -> int, g: T, s: seq<T>)
    ensures forall x :: x in Class(cmp, g, s) ==> x in s
  {
    if |s| > 0 {
      ClassMember(cmp, g, s[1..]);
      assert s == [s[0]] + s[1..];
    }
  }
}
