/** Files and bytes carved for each extension: src/core/carver.c:409-451. */
module CarverStats {
  import opened Carving

  const MAX_ROWS: nat := 64

  datatype ExtStat = ExtStat(ext: CString, count: nat, total: nat)

  /** An extension and a size. */
  datatype Sized = Sized(ext: CString, size: nat)

  /** How many of the files have this extension, and their bytes. */
  function Tally(files: seq<Sized>, ext: CString): (nat, nat) {
    if |files| == 0 then (0, 0)
    else
      var last, (count, total) := files[|files| - 1], Tally(files[..|files| - 1], ext);
      if last.ext == ext then (count + 1, total + last.size) else (count, total)
  }

  lemma TallyNext(files: seq<Sized>, f: Sized, ext: CString)
    ensures Tally(files + [f], ext)
            == if f.ext == ext then (Tally(files, ext).0 + 1, Tally(files, ext).1 + f.size) else Tally(files, ext)
  {
    assert (files + [f])[..|files|] == files;
  }

  lemma {:induction false} NoTally(files: seq<Sized>, ext: CString)
    requires forall k :: 0 <= k < |files| ==> files[k].ext != ext
    ensures Tally(files, ext) == (0, 0)
  {
    if |files| > 0 {
      NoTally(files[..|files| - 1], ext);
    }
  }

  /** The rows are exact for the extensions they list, and list every extension unless they are full. */
  ghost predicate Exact(rows: seq<ExtStat>, files: seq<Sized>) {
    && |rows| <= MAX_ROWS
    && (forall i, j :: 0 <= i < j < |rows| ==> rows[i].ext != rows[j].ext)
    && (forall i :: 0 <= i < |rows| ==> (rows[i].count, rows[i].total) == Tally(files, rows[i].ext))
    && (|rows| < MAX_ROWS ==> forall k :: 0 <= k < |files| ==> Listed(rows, files[k].ext))
  }

  predicate Listed(rows: seq<ExtStat>, ext: CString) {
    exists i :: 0 <= i < |rows| && rows[i].ext == ext
  }

  /** The first row with that extension, |rows| when there is none. */
  function RowOf(rows: seq<ExtStat>, ext: CString): (i: nat)
    ensures i <= |rows| && (i < |rows| ==> rows[i].ext == ext) && forall k :: 0 <= k < i ==> rows[k].ext != ext
  {
    if |rows| == 0 || rows[0].ext == ext then 0 else 1 + RowOf(rows[1..], ext)
  }

  /** The rows after one more file. */
  function Counted(rows: seq<ExtStat>, f: Sized): seq<ExtStat> {
    var i := RowOf(rows, f.ext);
    if i < |rows| then rows[i := rows[i].(count := rows[i].count + 1, total := rows[i].total + f.size)]
    else if |rows| < MAX_ROWS then rows + [ExtStat(f.ext, 1, f.size)]
    else rows
  }

  /** Extension and size of each carved file. */
  function Files(es: seq<Extent>, hints: seq<Hint>): (f: seq<Sized>)
    requires |es| == |hints|
    ensures |f| == |es|
  {
    seq(|es|, i requires 0 <= i < |es| => Sized(hints[i].extension, es[i].size))
  }

  lemma FilesNext(es: seq<Extent>, hints: seq<Hint>, e: Extent, h: Hint)
    requires |es| == |hints|
    ensures Files(es + [e], hints + [h]) == Files(es, hints) + [Sized(h.extension, e.size)]
  {
  }

  lemma NothingIsExact()
    ensures Exact([], []) && Files([], []) == []
  {
  }

  /** One more file keeps the rows exact. */
  lemma CountedIsExact(rows: seq<ExtStat>, files: seq<Sized>, f: Sized)
    requires Exact(rows, files)
    ensures Exact(Counted(rows, f), files + [f])
  {
    hide Tally;
    var r, i := Counted(rows, f), RowOf(rows, f.ext);
    if i == |rows| && |rows| < MAX_ROWS {
      forall k | 0 <= k < |files|
        ensures files[k].ext != f.ext
      {
        assert Listed(rows, files[k].ext);
      }
      NoTally(files, f.ext);
    }
    forall k | 0 <= k < |r|
      ensures (r[k].count, r[k].total) == Tally(files + [f], r[k].ext)
    {
      TallyNext(files, f, r[k].ext);
    }
    if |r| < MAX_ROWS {
      forall k | 0 <= k < |files + [f]|
        ensures Listed(r, (files + [f])[k].ext)
      {
        if k < |files| {
          var j :| 0 <= j < |rows| && rows[j].ext == files[k].ext;
          assert r[j].ext == files[k].ext;
        } else {
          assert r[i].ext == f.ext;
        }
      }
    }
  }

  ghost predicate Descending(rows: seq<ExtStat>) {
    forall i, j :: 0 <= i < j < |rows| ==> rows[i].count >= rows[j].count
  }

  /** Two rows exchanged. */
  function Swapped(rows: seq<ExtStat>, a: nat, b: nat): seq<ExtStat>
    requires a < |rows| && b < |rows|
  {
    rows[a := rows[b]][b := rows[a]]
  }

  /** Putting the largest of the rest at i extends the order. */
  lemma SwappedOrder(rows: seq<ExtStat>, i: nat, best: nat)
    requires i <= best < |rows| && forall k :: i <= k < |rows| ==> rows[best].count >= rows[k].count
    requires forall a, b :: 0 <= a < i && a < b < |rows| ==> rows[a].count >= rows[b].count
    ensures var r := Swapped(rows, i, best);
            && multiset(r) == multiset(rows)
            && forall a, b :: 0 <= a <= i && a < b < |r| ==> r[a].count >= r[b].count
  {
  }

  lemma SwappedIsExact(rows: seq<ExtStat>, files: seq<Sized>, a: nat, b: nat)
    requires Exact(rows, files) && a < |rows| && b < |rows|
    ensures Exact(Swapped(rows, a, b), files)
  {
    hide Tally;
    var r := Swapped(rows, a, b);
    if |r| < MAX_ROWS {
      forall k | 0 <= k < |files|
        ensures Listed(r, files[k].ext)
      {
        assert Listed(rows, files[k].ext);
        var j :| 0 <= j < |rows| && rows[j].ext == files[k].ext;
        assert r[if j == a then b else if j == b then a else j] == rows[j];
      }
    }
  }

  class ExtStats {
    const stats: array<ExtStat>
    var count: nat

    ghost predicate Valid()
      reads this
    {
      stats.Length == MAX_ROWS && count <= MAX_ROWS
    }

    ghost function Rows(): seq<ExtStat>
      requires Valid()
      reads this, stats
    {
      stats[..count]
    }

    constructor ()
      ensures Valid() && Rows() == [] && fresh(stats)
    {
      stats := new ExtStat[MAX_ROWS](_ => ExtStat([], 0, 0));
      count := 0;
    }

    /** carver_ext_stat_index: MAX_ROWS when there is no row and no room for one. */
    method Index(ext: CString) returns (idx: nat)
      requires Valid()
      modifies this, stats
      ensures Valid()
      ensures var i := RowOf(old(Rows()), ext);
              if i < old(count) then idx == i && Rows() == old(Rows())
              else if i < MAX_ROWS then idx == i && Rows() == old(Rows()) + [ExtStat(ext, 0, 0)]
              else idx == MAX_ROWS && Rows() == old(Rows())
    {
      for i := 0 to count
        invariant forall k :: 0 <= k < i ==> stats[k].ext != ext
      {
        if stats[i].ext == ext {
          return i;
        }
      }
      if count < MAX_ROWS {
        stats[count] := ExtStat(ext, 0, 0);
        count := count + 1;
        return count - 1;
      }
      idx := MAX_ROWS;
    }

    /** carver_ext_stat_add */
    method Add(ext: CString, size: nat)
      requires Valid()
      modifies this, stats
      ensures Valid() && Rows() == Counted(old(Rows()), Sized(ext, size))
    {
      var idx := Index(ext);
      if idx < MAX_ROWS {
        stats[idx] := stats[idx].(count := stats[idx].count + 1, total := stats[idx].total + size);
      }
    }

    method Clear()
      requires Valid()
      modifies this
      ensures Valid() && Rows() == []
    {
      count := 0;
    }

    /** carver_ext_stat_sort: most frequent first. */
    method Sort(ghost files: seq<Sized>)
      requires Valid() && Exact(Rows(), files)
      modifies stats
      ensures Valid() && Descending(Rows()) && Exact(Rows(), files) && multiset(Rows()) == multiset(old(Rows()))
    {
      hide Exact;
      for i := 0 to count
        invariant Valid() && Exact(Rows(), files) && multiset(Rows()) == multiset(old(Rows()))
        invariant forall a, b :: 0 <= a < i && a < b < count ==> Rows()[a].count >= Rows()[b].count
      {
        var best := Best(i);
        if best != i {
          ghost var before := Rows();
          SwappedIsExact(before, files, i, best);
          Swap(i, best);
          SwappedOrder(before, i, best);
        }
      }
    }

    /** The first of the largest rows from the i-th on. */
    method Best(i: nat) returns (best: nat)
      requires Valid() && i < count
      ensures i <= best < count && forall k :: i <= k < count ==> Rows()[best].count >= Rows()[k].count
    {
      best := i;
      for j := i + 1 to count
        invariant i <= best < count
        invariant forall k :: i <= k < j ==> stats[best].count >= stats[k].count
      {
        if stats[j].count > stats[best].count {
          best := j;
        }
      }
    }

    method Swap(i: nat, j: nat)
      requires Valid() && i < count && j < count
      modifies stats
      ensures Valid() && Rows() == Swapped(old(Rows()), i, j)
    {
      stats[i], stats[j] := stats[j], stats[i];
    }
  }
}
