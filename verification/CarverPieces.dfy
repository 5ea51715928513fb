/** What a scan finds, told file by file: src/core/carver.c:549-781.

    A scan makes stops.  Each file it finds is opened at one stop and ended at a later one, or by the end of the
    partition.  Which stops these are, and how long the file is taken to be, is said here without the carver's
    variables. */
module CarvedPieces {
  import opened Arith
  import opened Carving

  /** A position with that many bytes of the buffer from there on, or a sector of equal bytes. */
  datatype Stop = Byte(pos: nat, remaining: nat) | Blank(pos: nat)

  /** A file that is opened at stop `first` and ended at stop `last`, or still open when there is no such stop. */
  datatype Piece = Piece(first: nat, last: nat, file: Current, size: nat)

  /** The file that is open when stop k is reached. */
  function FileAt(ps: seq<Piece>, k: nat): Current {
    if |ps| == 0 then Closed
    else
      var p := ps[|ps| - 1];
      if p.first < k <= p.last then p.file else FileAt(ps[..|ps| - 1], k)
  }

  /** The stop has a header that counts: one of the open file's own format does not, before the footer of the file or,
      when no footer is known, in its first 64 KiB. */
  predicate Starts(o: Oracles, stop: Stop, file: Current) {
    && stop.Byte?
    && var found := o.header(stop.pos, stop.remaining, file);
    && |found| > 0
    && !(&& file.Open? && file.hint == found[0]
         && if file.footerLen > 0 then stop.pos < file.start + file.footerLen
            else (stop.pos - file.start) % WORD64 < 65_536)
  }

  /** The file such a header opens. */
  function Started(o: Oracles, stop: Stop, before: Current): (f: Current)
    requires Starts(o, stop, before)
    ensures f.Open?
  {
    var hint := o.header(stop.pos, stop.remaining, before)[0];
    var footer := o.footer(stop.pos, stop.remaining, hint);
    Open(stop.pos, hint, if footer > 0 then footer else 0)
  }

  /** How far the scan has come at a stop; a sector of equal bytes is passed as a whole. */
  function Reached(ss: nat, stop: Stop): nat {
    if stop.Byte? then stop.pos else stop.pos + ss
  }

  predicate HasHeader(o: Oracles, stop: Stop, file: Current) {
    stop.Byte? && o.header(stop.pos, stop.remaining, file) != []
  }

  predicate PastFooter(ss: nat, stop: Stop, file: Current)
    requires file.Open?
  {
    file.footerLen > 0 && Reached(ss, stop) >= file.start + file.footerLen
  }

  /** The longest the file may become: 4 MiB when its format sets no limit. */
  function Longest(file: Current): nat
    requires file.Open?
  {
    if file.hint.maxFilesize == 0 then 4_194_304 else file.hint.maxFilesize
  }

  /** The stop ends the open file: with a header that counts, or without any header behind the footer or beyond the
      longest size. */
  predicate Ends(o: Oracles, ss: nat, stop: Stop, file: Current)
    requires file.Open?
  {
    if HasHeader(o, stop, file) then Starts(o, stop, file)
    else PastFooter(ss, stop, file) || (Reached(ss, stop) - file.start) % WORD64 > Longest(file)
  }

  /** The size of a file that is ended at a stop. */
  function SizeAt(o: Oracles, ss: nat, stop: Stop, file: Current): nat
    requires file.Open?
  {
    var most := Min((Reached(ss, stop) - file.start) % WORD64, Longest(file));
    if HasHeader(o, stop, file) then
      var footer := if file.footerLen > 0 then file.footerLen else o.footer(stop.pos, stop.remaining, file.hint);
      if 0 < footer < most then footer else most
    else if PastFooter(ss, stop, file) then file.footerLen
    else Longest(file)
  }

  /** One file after the other. */
  ghost predicate InOrder(n: nat, ps: seq<Piece>) {
    && (forall i :: 0 <= i < |ps| ==> ps[i].first < ps[i].last <= n && ps[i].file.Open?)
    && (forall i, j :: 0 <= i < j < |ps| ==> ps[i].last <= ps[j].first)
  }

  /** Each file is opened by a header that counts. */
  ghost predicate WellOpened(o: Oracles, stops: seq<Stop>, ps: seq<Piece>)
    requires InOrder(|stops|, ps)
  {
    forall i :: 0 <= i < |ps| ==>
      var stop, before := stops[ps[i].first], FileAt(ps, ps[i].first);
      Starts(o, stop, before) && ps[i].file == Started(o, stop, before)
  }

  /** Every header that counts opens a file. */
  ghost predicate NoneMissed(o: Oracles, stops: seq<Stop>, ps: seq<Piece>) {
    forall k :: 0 <= k < |stops| && Starts(o, stops[k], FileAt(ps, k)) ==> OpenedAt(ps, k)
  }

  ghost predicate OpenedAt(ps: seq<Piece>, k: nat) {
    exists i :: 0 <= i < |ps| && ps[i].first == k
  }

  /** A file is ended by the first stop that ends it, with the size it has there. */
  ghost predicate WellEnded(o: Oracles, ss: nat, stops: seq<Stop>, p: Piece)
    requires p.file.Open?
  {
    && (forall k :: p.first < k < |stops| && k <= p.last ==> (Ends(o, ss, stops[k], p.file) <==> k == p.last))
    && (p.last < |stops| ==> p.size == SizeAt(o, ss, stops[p.last], p.file))
  }

  /** These are the files found at these stops. */
  ghost predicate Describes(o: Oracles, ss: nat, stops: seq<Stop>, ps: seq<Piece>) {
    && InOrder(|stops|, ps) && WellOpened(o, stops, ps) && NoneMissed(o, stops, ps)
    && forall i :: 0 <= i < |ps| ==> WellEnded(o, ss, stops, ps[i])
  }

  /** Those of at least 512 bytes. */
  function Kept(ps: seq<Piece>): seq<Piece> {
    if |ps| == 0 then []
    else
      var p := ps[|ps| - 1];
      Kept(ps[..|ps| - 1]) + if p.size >= 512 then [p] else []
  }

  /** The entries are these files, up to the ten millionth. */
  ghost predicate Lists(s: State, ps: seq<Piece>) {
    var kept := Kept(ps);
    && s.count == |s.extents| == |s.hints| == Min(|kept|, 10_000_000)
    && forall i :: 0 <= i < s.count ==>
         && kept[i].file.Open?
         && s.extents[i] == Extent(kept[i].file.start, kept[i].size) && s.hints[i] == kept[i].file.hint
  }

  /** The files ended before stop n. */
  function Ended(ps: seq<Piece>, n: nat): seq<Piece> {
    if |ps| > 0 && ps[|ps| - 1].last >= n then ps[..|ps| - 1] else ps
  }

  /** The state after n stops that are described like that. */
  ghost predicate Reflects(s: State, n: nat, ps: seq<Piece>) {
    s.file == FileAt(ps, n) && Lists(s, Ended(ps, n))
  }

  // ----- one stop -----

  lemma {:induction false} NoneOpen(ps: seq<Piece>, k: nat)
    requires forall i :: 0 <= i < |ps| ==> ps[i].last < k
    ensures FileAt(ps, k) == Closed
  {
    if |ps| > 0 {
      NoneOpen(ps[..|ps| - 1], k);
    }
  }

  lemma NothingFound(o: Oracles, ss: nat)
    ensures Describes(o, ss, [], []) && Reflects(INITIAL, 0, [])
  {
  }

  lemma EmittedLists(s: State, ps: seq<Piece>, p: Piece)
    requires s.file.Open? && p.file == s.file && Lists(s, ps)
    ensures Lists(Emitted(s, p.size), ps + [p]) && Emitted(s, p.size).file == Closed
  {
    assert (ps + [p])[..|ps|] == ps;
  }

  lemma OtherFile(s: State, ps: seq<Piece>, file: Current)
    requires Lists(s, ps)
    ensures Lists(s.(file := file), ps)
  {
  }

  /** One stop of the carver. */
  function Look(o: Oracles, ss: nat, s: State, stop: Stop): State {
    if stop.Byte? then ByteStep(o, s, stop.pos, stop.remaining) else ConstantStep(ss, s, stop.pos)
  }

  /** A step in the words of this module. */
  lemma LookIs(o: Oracles, ss: nat, s: State, stop: Stop)
    ensures var t := if s.file.Open? && Ends(o, ss, stop, s.file) then Emitted(s, SizeAt(o, ss, stop, s.file)) else s;
            Look(o, ss, s, stop)
              == if Starts(o, stop, s.file) then t.(file := Started(o, stop, s.file)) else t
  {
  }

  /** The last file is open at stop n. */
  predicate LastOpen(ps: seq<Piece>, n: nat) {
    |ps| > 0 && ps[|ps| - 1].last == n && ps[|ps| - 1].file.Open?
  }

  /** The files when stop n is left: the open one has become longer or is ended. */
  function Settled(o: Oracles, ss: nat, n: nat, stop: Stop, ps: seq<Piece>): seq<Piece> {
    if !LastOpen(ps, n) then ps
    else
      var p := ps[|ps| - 1];
      ps[..|ps| - 1]
      + [if Ends(o, ss, stop, p.file) then p.(size := SizeAt(o, ss, stop, p.file)) else p.(last := n + 1)]
  }

  function Next(o: Oracles, ss: nat, n: nat, stop: Stop, ps: seq<Piece>): seq<Piece> {
    var qs, file := Settled(o, ss, n, stop, ps), FileAt(ps, n);
    if Starts(o, stop, file) then qs + [Piece(n, n + 1, Started(o, stop, file), 0)] else qs
  }

  lemma WhoIsOpen(n: nat, ps: seq<Piece>)
    requires InOrder(n, ps)
    ensures FileAt(ps, n) == if LastOpen(ps, n) then ps[|ps| - 1].file else Closed
    ensures Ended(ps, n) == if LastOpen(ps, n) then ps[..|ps| - 1] else ps
  {
    if !LastOpen(ps, n) {
      NoneOpen(ps, n);
    }
  }

  lemma LastIn(n: nat, ps: seq<Piece>)
    requires InOrder(n, ps) && |ps| > 0
    ensures ps[|ps| - 1].first < ps[|ps| - 1].last <= n && ps[|ps| - 1].file.Open?
  {
  }

  /** What was open at earlier stops does not change. */
  lemma SameBefore(o: Oracles, ss: nat, n: nat, ps: seq<Piece>, stop: Stop, k: nat)
    requires k <= n
    ensures FileAt(Next(o, ss, n, stop, ps), k) == FileAt(ps, k)
  {
    hide Starts, Started, Ends, SizeAt;
    var mid, qs := Settled(o, ss, n, stop, ps), Next(o, ss, n, stop, ps);
    if |mid| > 0 {
      assert mid[..|mid| - 1] == ps[..|ps| - 1];
    }
    assert FileAt(mid, k) == FileAt(ps, k);
    if |qs| > |mid| {
      assert qs[..|qs| - 1] == mid && qs[|qs| - 1].first == n;
    }
  }

  lemma NextInOrder(o: Oracles, ss: nat, n: nat, ps: seq<Piece>, stop: Stop)
    requires InOrder(n, ps)
    ensures InOrder(n + 1, Next(o, ss, n, stop, ps))
  {
    hide Starts, Started, Ends, SizeAt;
    WhoIsOpen(n, ps);
    hide FileAt;
    if LastOpen(ps, n) && Starts(o, stop, FileAt(ps, n)) {
      StartsEnds(o, ss, stop, FileAt(ps, n));
    }
  }

  lemma StartsEnds(o: Oracles, ss: nat, stop: Stop, file: Current)
    requires file.Open? && Starts(o, stop, file)
    ensures Ends(o, ss, stop, file)
  {
  }

  lemma NextWellOpened(o: Oracles, ss: nat, stops: seq<Stop>, ps: seq<Piece>, stop: Stop)
    requires InOrder(|stops|, ps) && WellOpened(o, stops, ps)
    requires InOrder(|stops| + 1, Next(o, ss, |stops|, stop, ps))
    ensures WellOpened(o, stops + [stop], Next(o, ss, |stops|, stop, ps))
  {
    hide Starts, Started, Ends, SizeAt, FileAt;
    var n := |stops|;
    var qs := Next(o, ss, n, stop, ps);
    forall i | 0 <= i < |qs|
      ensures var at, before := (stops + [stop])[qs[i].first], FileAt(qs, qs[i].first);
              Starts(o, at, before) && qs[i].file == Started(o, at, before)
    {
      SameBefore(o, ss, n, ps, stop, qs[i].first);
    }
  }

  lemma NextNoneMissed(o: Oracles, ss: nat, stops: seq<Stop>, ps: seq<Piece>, stop: Stop)
    requires NoneMissed(o, stops, ps)
    ensures NoneMissed(o, stops + [stop], Next(o, ss, |stops|, stop, ps))
  {
    hide Starts, Started, Ends, SizeAt, FileAt;
    var n := |stops|;
    var qs, all := Next(o, ss, n, stop, ps), stops + [stop];
    forall k | 0 <= k < |all| && Starts(o, all[k], FileAt(qs, k))
      ensures OpenedAt(qs, k)
    {
      SameBefore(o, ss, n, ps, stop, k);
      if k < n {
        var i :| 0 <= i < |ps| && ps[i].first == k;
        assert qs[i].first == k;
      } else {
        assert qs[|qs| - 1].first == n;
      }
    }
  }

  lemma NextWellEnded(o: Oracles, ss: nat, stops: seq<Stop>, ps: seq<Piece>, stop: Stop)
    requires InOrder(|stops|, ps) && forall i :: 0 <= i < |ps| ==> WellEnded(o, ss, stops, ps[i])
    ensures forall i :: 0 <= i < |Next(o, ss, |stops|, stop, ps)| ==>
              Next(o, ss, |stops|, stop, ps)[i].file.Open?
              && WellEnded(o, ss, stops + [stop], Next(o, ss, |stops|, stop, ps)[i])
  {
    hide Starts, Started, Ends, SizeAt, FileAt;
    var n, all := |stops|, stops + [stop];
    var qs := Next(o, ss, n, stop, ps);
    forall i | 0 <= i < |qs|
      ensures qs[i].file.Open? && WellEnded(o, ss, all, qs[i])
    {
      if i < |ps| {
        assert WellEnded(o, ss, stops, ps[i]);
        assert all[..n] == stops;
      }
    }
  }

  /** The carver's variables after one more stop. */
  lemma NextReflects(o: Oracles, ss: nat, n: nat, ps: seq<Piece>, s: State, stop: Stop)
    requires InOrder(n, ps) && Reflects(s, n, ps) && InOrder(n + 1, Next(o, ss, n, stop, ps))
    ensures Reflects(Look(o, ss, s, stop), n + 1, Next(o, ss, n, stop, ps))
  {
    hide Starts, Started, Ends, SizeAt, FileAt, Look, Emitted, Lists, InOrder;
    var mid, qs := Settled(o, ss, n, stop, ps), Next(o, ss, n, stop, ps);
    WhoIsOpen(n, ps);
    WhoIsOpen(n + 1, qs);
    LookIs(o, ss, s, stop);
    NextEnded(o, ss, n, ps, stop);
    if LastOpen(ps, n) {
      var p := ps[|ps| - 1];
      EmittedLists(s, ps[..|ps| - 1], p.(size := SizeAt(o, ss, stop, p.file)));
    }
    if Starts(o, stop, s.file) {
      if LastOpen(ps, n) {
        StartsEnds(o, ss, stop, s.file);
        OtherFile(Emitted(s, SizeAt(o, ss, stop, s.file)), mid, Started(o, stop, s.file));
      } else {
        OtherFile(s, ps, Started(o, stop, s.file));
      }
    }
  }

  /** The files ended by then. */
  lemma NextEnded(o: Oracles, ss: nat, n: nat, ps: seq<Piece>, stop: Stop)
    requires InOrder(n, ps) && InOrder(n + 1, Next(o, ss, n, stop, ps))
    ensures Ended(Next(o, ss, n, stop, ps), n + 1)
            == if !LastOpen(ps, n) then ps
               else if Ends(o, ss, stop, ps[|ps| - 1].file) then
                 ps[..|ps| - 1] + [ps[|ps| - 1].(size := SizeAt(o, ss, stop, ps[|ps| - 1].file))]
               else ps[..|ps| - 1]
    ensures LastOpen(Next(o, ss, n, stop, ps), n + 1)
            <==> Starts(o, stop, FileAt(ps, n)) || (LastOpen(ps, n) && !Ends(o, ss, stop, ps[|ps| - 1].file))
  {
    hide Starts, Started, SizeAt, Ends;
    WhoIsOpen(n, ps);
    if |ps| > 0 {
      LastIn(n, ps);
    }
    hide FileAt, InOrder;
    var mid, qs := Settled(o, ss, n, stop, ps), Next(o, ss, n, stop, ps);
    assert |mid| > 0 ==> mid[..|mid| - 1] == ps[..|ps| - 1];
    if Starts(o, stop, FileAt(ps, n)) {
      assert qs[..|qs| - 1] == mid;
      if LastOpen(ps, n) {
        StartsEnds(o, ss, stop, ps[|ps| - 1].file);
      }
    }
  }

  lemma OneStop(o: Oracles, ss: nat, stops: seq<Stop>, ps: seq<Piece>, s: State, stop: Stop)
    requires Describes(o, ss, stops, ps) && Reflects(s, |stops|, ps)
    ensures Describes(o, ss, stops + [stop], Next(o, ss, |stops|, stop, ps))
    ensures Reflects(Look(o, ss, s, stop), |stops| + 1, Next(o, ss, |stops|, stop, ps))
  {
    hide InOrder, WellOpened, NoneMissed, WellEnded, Reflects, Look, Next;
    NextInOrder(o, ss, |stops|, ps, stop);
    NextWellOpened(o, ss, stops, ps, stop);
    NextNoneMissed(o, ss, stops, ps, stop);
    NextWellEnded(o, ss, stops, ps, stop);
    NextReflects(o, ss, |stops|, ps, s, stop);
  }

  // ----- all stops -----

  function Looks(o: Oracles, ss: nat, s: State, stops: seq<Stop>): State {
    if |stops| == 0 then s else Look(o, ss, Looks(o, ss, s, stops[..|stops| - 1]), stops[|stops| - 1])
  }

  lemma {:induction false} LooksOn(o: Oracles, ss: nat, s: State, a: seq<Stop>, b: seq<Stop>)
    ensures Looks(o, ss, s, a + b) == Looks(o, ss, Looks(o, ss, s, a), b)
    decreases |b|
  {
    hide Look;
    if |b| == 0 {
      assert a + b == a;
    } else {
      assert (a + b)[..|a + b| - 1] == a + b[..|b| - 1];
      LooksOn(o, ss, s, a, b[..|b| - 1]);
    }
  }

  /** Whatever the stops, the carver's variables tell the files found at them. */
  lemma {:induction false} AllStops(o: Oracles, ss: nat, stops: seq<Stop>) returns (ps: seq<Piece>)
    ensures Describes(o, ss, stops, ps) && Reflects(Looks(o, ss, INITIAL, stops), |stops|, ps)
    decreases |stops|
  {
    hide Look, Next, Describes, Reflects;
    if |stops| == 0 {
      ps := [];
      NothingFound(o, ss);
      assert stops == [];
    } else {
      var n := |stops| - 1;
      var qs := AllStops(o, ss, stops[..n]);
      OneStop(o, ss, stops[..n], qs, Looks(o, ss, INITIAL, stops[..n]), stops[n]);
      assert stops[..n] + [stops[n]] == stops;
      ps := Next(o, ss, n, stops[n], qs);
    }
  }

  // ----- the stops of a scan -----

  /** A sector, with the bytes of the buffer from its start on. */
  datatype Sector = Sector(at: nat, remaining: nat)

  /** The positions of a sector where a header is looked for: the first in a plain scan, in a deep scan all with a
      sector's bytes behind them. */
  function Positions(ss: nat, deep: bool, remaining: nat): nat
    requires ss > 0
  {
    if remaining < ss then 0 else if deep then Min(ss, remaining - ss + 1) else 1
  }

  function SectorStops(o: Oracles, ss: nat, deep: bool, x: Sector): seq<Stop>
    requires ss > 0
  {
    if o.constant(x.at) then [Blank(x.at)]
    else seq(Positions(ss, deep, x.remaining), k requires 0 <= k < Positions(ss, deep, x.remaining) =>
               Byte(x.at + k, x.remaining - k))
  }

  function StopsOf(o: Oracles, ss: nat, deep: bool, xs: seq<Sector>): seq<Stop>
    requires ss > 0
  {
    if |xs| == 0 then []
    else StopsOf(o, ss, deep, xs[..|xs| - 1]) + SectorStops(o, ss, deep, xs[|xs| - 1])
  }

  /** Sectors i..n of a chunk. */
  function SectorsFrom(ss: nat, from: nat, n: nat, size: nat, i: nat): seq<Sector>
    requires ss > 0 && n * ss <= size
    decreases n - i
  {
    if i >= n then []
    else
      SectorInside(i, n, ss, size);
      [Sector(from + i * ss, size - i * ss)] + SectorsFrom(ss, from, n, size, i + 1)
  }

  function ChunkSectorList(j: Job, chunk: nat): seq<Sector>
    requires ValidJob(j) && chunk < j.sectors && (chunk == 0 || chunk >= PerChunk(j))
  {
    SectorsFrom(j.ss, ReadFrom(j, chunk), ChunkCount(j, chunk), ChunkBytes(j, chunk),
                if chunk == 0 then 0 else Skipped(j))
  }

  /** The sectors scanned from a chunk on. */
  function Sectors(o: Oracles, j: Job, chunk: nat): seq<Sector>
    requires ValidJob(j) && (chunk == 0 || chunk >= PerChunk(j))
    decreases j.sectors - chunk
  {
    if chunk >= j.sectors || !o.readable(ReadFrom(j, chunk)) then []
    else ChunkSectorList(j, chunk) + if o.cancel(chunk) then [] else Sectors(o, j, chunk + PerChunk(j))
  }

  lemma {:induction false} StopsConcat(o: Oracles, ss: nat, deep: bool, xs: seq<Sector>, ys: seq<Sector>)
    requires ss > 0
    ensures StopsOf(o, ss, deep, xs + ys) == StopsOf(o, ss, deep, xs) + StopsOf(o, ss, deep, ys)
    decreases |ys|
  {
    hide SectorStops;
    if |ys| == 0 {
      assert xs + ys == xs;
    } else {
      assert (xs + ys)[..|xs + ys| - 1] == xs + ys[..|ys| - 1];
      StopsConcat(o, ss, deep, xs, ys[..|ys| - 1]);
    }
  }

  function BytesFrom(ss: nat, deep: bool, at: nat, remaining: nat, off: nat): seq<Stop>
    requires ss > 0 && off <= ss
  {
    var n := if off == ss then 0 else Min(Positions(ss, deep, remaining), ss - off);
    seq(n, k requires 0 <= k < n => Byte(at + off + k, remaining - k))
  }

  lemma {:induction false} BytesAreLooks(o: Oracles, ss: nat, deep: bool, s: State, at: nat, off: nat, remaining: nat)
    requires ss > 0 && off <= ss && (deep || off == 0 || off == ss)
    ensures SectorBytes(o, ss, deep, s, at, off, remaining)
            == Looks(o, ss, s, BytesFrom(ss, deep, at, remaining, off))
    decreases ss - off
  {
    hide ByteStep, Looks;
    NoLooks(o, ss, s);
    if off < ss && remaining >= ss {
      hide BytesFrom;
      var step := if deep then 1 else ss;
      var rest := BytesFrom(ss, deep, at, remaining - step, off + step);
      var first := Byte(at + off, remaining);
      FirstByteOf(ss, deep, at, remaining, off);
      LooksOn(o, ss, s, [first], rest);
      OneLook(o, ss, s, first);
      BytesAreLooks(o, ss, deep, ByteStep(o, s, at + off, remaining), at, off + step, remaining - step);
    } else {
      assert BytesFrom(ss, deep, at, remaining, off) == [];
    }
  }

  lemma FirstByteOf(ss: nat, deep: bool, at: nat, remaining: nat, off: nat)
    requires off < ss <= remaining && (deep || off == 0)
    ensures var step := if deep then 1 else ss;
            BytesFrom(ss, deep, at, remaining, off)
            == [Byte(at + off, remaining)] + BytesFrom(ss, deep, at, remaining - step, off + step)
  {
  }

  lemma OneLook(o: Oracles, ss: nat, s: State, stop: Stop)
    ensures Looks(o, ss, s, [stop]) == Look(o, ss, s, stop)
  {
    hide Look;
    assert [stop][..0] == [];
    assert Looks(o, ss, s, []) == s;
  }

  lemma SectorIsLooks(o: Oracles, ss: nat, deep: bool, s: State, x: Sector)
    requires ss > 0
    ensures SectorStep(o, ss, deep, s, x.at, x.remaining) == Looks(o, ss, s, SectorStops(o, ss, deep, x))
  {
    hide SectorBytes, Looks, ConstantStep, ByteStep;
    if o.constant(x.at) {
      OneLook(o, ss, s, Blank(x.at));
    } else {
      BytesAreLooks(o, ss, deep, s, x.at, 0, x.remaining);
      assert BytesFrom(ss, deep, x.at, x.remaining, 0) == SectorStops(o, ss, deep, x);
    }
  }

  lemma {:induction false} ChunkIsLooks(o: Oracles, ss: nat, deep: bool, s: State, from: nat, n: nat, size: nat, i: nat)
    requires ss > 0 && n * ss <= size
    ensures ChunkSectors(o, ss, deep, s, from, n, size, i)
            == Looks(o, ss, s, StopsOf(o, ss, deep, SectorsFrom(ss, from, n, size, i)))
    decreases n - i
  {
    hide SectorStep, Look, SectorStops;
    if i < n {
      SectorInside(i, n, ss, size);
      var x := Sector(from + i * ss, size - i * ss);
      var rest := SectorsFrom(ss, from, n, size, i + 1);
      StopsConcat(o, ss, deep, [x], rest);
      OneSector(o, ss, deep, x);
      LooksOn(o, ss, s, SectorStops(o, ss, deep, x), StopsOf(o, ss, deep, rest));
      SectorIsLooks(o, ss, deep, s, x);
      ChunkIsLooks(o, ss, deep, SectorStep(o, ss, deep, s, x.at, x.remaining), from, n, size, i + 1);
    }
  }

  lemma OneSector(o: Oracles, ss: nat, deep: bool, x: Sector)
    requires ss > 0
    ensures StopsOf(o, ss, deep, [x]) == SectorStops(o, ss, deep, x)
  {
    hide SectorStops;
    assert StopsOf(o, ss, deep, [x][..0]) == [];
  }

  /** A scan looks at these sectors, in this order. */
  lemma {:induction false} ScanIsLooks(o: Oracles, j: Job, s: State, chunk: nat)
    requires ValidJob(j) && (chunk == 0 || chunk >= PerChunk(j))
    ensures Scan(o, j, s, chunk).0 == Looks(o, j.ss, s, StopsOf(o, j.ss, j.deep, Sectors(o, j, chunk)))
    decreases j.sectors - chunk
  {
    hide ChunkSectors, ReadFrom, ChunkBytes, Skipped, PerChunk, StopsOf, Looks, Look, SectorsFrom;
    if chunk < j.sectors && o.readable(ReadFrom(j, chunk)) {
      var xs, t := ChunkSectorList(j, chunk), ChunkScan(o, j, s, chunk);
      ChunkIsLooks(o, j.ss, j.deep, s, ReadFrom(j, chunk), ChunkCount(j, chunk), ChunkBytes(j, chunk),
                   if chunk == 0 then 0 else Skipped(j));
      if o.cancel(chunk) {
        assert xs + [] == xs;
      } else {
        var rest := Sectors(o, j, chunk + PerChunk(j));
        StopsConcat(o, j.ss, j.deep, xs, rest);
        LooksOn(o, j.ss, s, StopsOf(o, j.ss, j.deep, xs), StopsOf(o, j.ss, j.deep, rest));
        ScanIsLooks(o, j, t, chunk + PerChunk(j));
      }
    } else {
      NoLooks(o, j.ss, s);
      NoStops(o, j.ss, j.deep);
    }
  }

  lemma NoLooks(o: Oracles, ss: nat, s: State)
    ensures Looks(o, ss, s, []) == s
  {
  }

  lemma NoStops(o: Oracles, ss: nat, deep: bool)
    requires ss > 0
    ensures StopsOf(o, ss, deep, []) == []
  {
  }

  // ----- a whole scan -----

  /** The size of a file that the end of the partition ends. */
  function SizeAtEnd(j: Job, file: Current): nat
    requires file.Open?
  {
    MulNonNeg(j.sectors, j.ss);
    var rest := (j.start + j.sectors * j.ss - file.start) % WORD64;
    var most := if file.hint.maxFilesize == 0 then rest else Min(rest, file.hint.maxFilesize);
    if 0 < file.footerLen < most then file.footerLen else most
  }

  /** A scan that made these stops found these files.  They are its entries; when it was cancelled, those that were
      ended by then. */
  ghost predicate Found(o: Oracles, j: Job, stops: seq<Stop>, ps: seq<Piece>, s: State, cancelled: bool) {
    && Describes(o, j.ss, stops, ps)
    && (if cancelled then s.file == FileAt(ps, |stops|) && Lists(s, Ended(ps, |stops|))
        else s.file == Closed && Lists(s, ps))
    && (!cancelled ==> forall i :: 0 <= i < |ps| && ps[i].last == |stops| ==>
          ps[i].file.Open? && ps[i].size == SizeAtEnd(j, ps[i].file))
  }

  lemma CarvedIsFound(o: Oracles, j: Job, chunk: nat) returns (ps: seq<Piece>)
    requires ValidJob(j) && (chunk == 0 || chunk >= PerChunk(j))
    ensures Found(o, j, StopsOf(o, j.ss, j.deep, Sectors(o, j, chunk)), ps, Carved(o, j, chunk),
                  Scan(o, j, INITIAL, chunk).1)
  {
    hide Sectors, StopsOf, Looks, Scan, Lists, FileAt, Emitted, WellOpened, NoneMissed, WellEnded;
    var stops := StopsOf(o, j.ss, j.deep, Sectors(o, j, chunk));
    var (s, cancelled) := Scan(o, j, INITIAL, chunk);
    var qs := AllStops(o, j.ss, stops);
    ScanIsLooks(o, j, INITIAL, chunk);
    ps := qs;
    WhoIsOpen(|stops|, qs);
    if !cancelled && LastOpen(qs, |stops|) {
      ps := Closing(o, j, stops, qs, s);
    }
  }

  /** The end of the partition. */
  lemma Closing(o: Oracles, j: Job, stops: seq<Stop>, qs: seq<Piece>, s: State) returns (ps: seq<Piece>)
    requires Describes(o, j.ss, stops, qs) && Reflects(s, |stops|, qs) && LastOpen(qs, |stops|)
    ensures Found(o, j, stops, ps, Finished(j, s), false)
  {
    hide Describes, Lists, Emitted, FileAt;
    DescribesInOrder(o, j.ss, stops, qs);
    WhoIsOpen(|stops|, qs);
    var n := |qs| - 1;
    var size := SizeAtEnd(j, qs[n].file);
    ps := WithLast(qs, size);
    SizedAtEnd(o, j.ss, stops, qs, size);
    EmittedLists(s, qs[..n], qs[n].(size := size));
  }

  function WithLast(ps: seq<Piece>, size: nat): seq<Piece>
    requires |ps| > 0
  {
    ps[..|ps| - 1] + [ps[|ps| - 1].(size := size)]
  }

  lemma DescribesInOrder(o: Oracles, ss: nat, stops: seq<Stop>, ps: seq<Piece>)
    requires Describes(o, ss, stops, ps)
    ensures InOrder(|stops|, ps)
  {
  }

  /** The size of the open file is not yet part of the description. */
  lemma SizedAtEnd(o: Oracles, ss: nat, stops: seq<Stop>, ps: seq<Piece>, size: nat)
    requires Describes(o, ss, stops, ps) && LastOpen(ps, |stops|)
    ensures Describes(o, ss, stops, WithLast(ps, size))
  {
    hide Starts, Started, Ends, SizeAt, FileAt, NoneMissed, WellEnded;
    var qs := WithLast(ps, size);
    forall k
      ensures FileAt(qs, k) == FileAt(ps, k)
    {
      SameFile(ps, size, k);
    }
    assert forall i :: 0 <= i < |qs| ==>
             qs[i].first == ps[i].first && qs[i].last == ps[i].last && qs[i].file == ps[i].file;
    SizedNoneMissed(o, stops, ps, size);
    forall i | 0 <= i < |qs|
      ensures WellEnded(o, ss, stops, qs[i])
    {
      assert WellEnded(o, ss, stops, ps[i]);
      SizedWellEnded(o, ss, stops, ps[i], size);
    }
  }

  lemma SizedNoneMissed(o: Oracles, stops: seq<Stop>, ps: seq<Piece>, size: nat)
    requires |ps| > 0 && NoneMissed(o, stops, ps)
    ensures NoneMissed(o, stops, WithLast(ps, size))
  {
    hide Starts, FileAt;
    var qs := WithLast(ps, size);
    forall k | 0 <= k < |stops| && Starts(o, stops[k], FileAt(qs, k))
      ensures OpenedAt(qs, k)
    {
      SameFile(ps, size, k);
      var i :| 0 <= i < |ps| && ps[i].first == k;
      assert qs[i].first == k;
    }
  }

  lemma SizedWellEnded(o: Oracles, ss: nat, stops: seq<Stop>, p: Piece, size: nat)
    requires p.file.Open? && WellEnded(o, ss, stops, p)
    ensures p.last == |stops| ==> WellEnded(o, ss, stops, p.(size := size))
  {
    hide Ends, SizeAt;
  }

  lemma SameFile(ps: seq<Piece>, size: nat, k: nat)
    requires |ps| > 0
    ensures FileAt(WithLast(ps, size), k) == FileAt(ps, k)
  {
    var qs := WithLast(ps, size);
    assert qs[..|qs| - 1] == ps[..|ps| - 1];
  }

  // ----- which sectors a scan looks at -----

  /** The chunks scanned, the first of them `chunk`. */
  function Chunks(o: Oracles, j: Job, chunk: nat): seq<nat>
    requires ValidJob(j) && (chunk == 0 || chunk >= PerChunk(j))
    decreases j.sectors - chunk
  {
    if chunk >= j.sectors || !o.readable(ReadFrom(j, chunk)) then []
    else [chunk] + if o.cancel(chunk) then [] else Chunks(o, j, chunk + PerChunk(j))
  }

  ghost predicate IsChunk(j: Job, c: nat) {
    ValidJob(j) && c < j.sectors && (c == 0 || c >= PerChunk(j))
  }

  /** A chunk is read, and the scan goes on behind it. */
  lemma MoreChunks(o: Oracles, j: Job, s: State, chunk: nat)
    requires ValidJob(j) && (chunk == 0 || chunk >= PerChunk(j))
    requires chunk < j.sectors && o.readable(ReadFrom(j, chunk)) && !o.cancel(chunk)
    ensures Chunks(o, j, chunk) == [chunk] + Chunks(o, j, chunk + PerChunk(j))
    ensures Sectors(o, j, chunk) == ChunkSectorList(j, chunk) + Sectors(o, j, chunk + PerChunk(j))
    ensures Scan(o, j, s, chunk) == Scan(o, j, ChunkScan(o, j, s, chunk), chunk + PerChunk(j))
  {
    hide ReadFrom, PerChunk, ChunkScan, ChunkSectorList;
  }

  lemma LastChunks(o: Oracles, j: Job, s: State, chunk: nat)
    requires ValidJob(j) && (chunk == 0 || chunk >= PerChunk(j))
    ensures chunk >= j.sectors || !o.readable(ReadFrom(j, chunk)) ==>
              Chunks(o, j, chunk) == [] && Sectors(o, j, chunk) == [] && !Scan(o, j, s, chunk).1
    ensures chunk < j.sectors && o.readable(ReadFrom(j, chunk)) && o.cancel(chunk) ==>
              && Chunks(o, j, chunk) == [chunk] && Sectors(o, j, chunk) == ChunkSectorList(j, chunk)
              && Scan(o, j, s, chunk).1
  {
    hide ReadFrom, PerChunk, ChunkScan, ChunkSectorList;
  }

  /** Chunks one behind the other; all were read, and the user cancelled at none but the last. */
  ghost predicate InRow(o: Oracles, j: Job, chunk: nat, cs: seq<nat>)
    requires ValidJob(j)
  {
    forall m :: 0 <= m < |cs| ==>
      && cs[m] == chunk + m * PerChunk(j) && IsChunk(j, cs[m]) && o.readable(ReadFrom(j, cs[m]))
      && (m < |cs| - 1 ==> !o.cancel(cs[m]))
  }

  lemma RowAfter(o: Oracles, j: Job, chunk: nat, cs: seq<nat>)
    requires IsChunk(j, chunk) && o.readable(ReadFrom(j, chunk)) && !o.cancel(chunk)
    requires InRow(o, j, chunk + PerChunk(j), cs)
    ensures InRow(o, j, chunk, [chunk] + cs)
  {
    hide ReadFrom, PerChunk;
    var all := [chunk] + cs;
    forall m | 0 <= m < |all|
      ensures all[m] == chunk + m * PerChunk(j)
    {
      if m > 0 {
        assert all[m] == cs[m - 1];
        Distribute(m - 1, 1, PerChunk(j));
      }
    }
    forall m | 0 < m < |all|
      ensures all[m] == cs[m - 1]
    {
    }
  }

  /** A scan goes on until the partition ends, a chunk cannot be read, or the user cancels. */
  lemma {:induction false} ChunksAre(o: Oracles, j: Job, s: State, chunk: nat)
    requires ValidJob(j) && (chunk == 0 || chunk >= PerChunk(j))
    ensures var cs := Chunks(o, j, chunk);
            && InRow(o, j, chunk, cs)
            && (Scan(o, j, s, chunk).1 <==> |cs| > 0 && o.cancel(cs[|cs| - 1]))
            && (!Scan(o, j, s, chunk).1 ==>
                  var next: nat := chunk + |cs| * PerChunk(j);
                  next >= j.sectors || ((next == 0 || next >= PerChunk(j)) && !o.readable(ReadFrom(j, next))))
    decreases j.sectors - chunk
  {
    hide ReadFrom, PerChunk, ChunkScan, ChunkSectorList, InRow, Chunks, Scan, Sectors;
    if chunk < j.sectors && o.readable(ReadFrom(j, chunk)) && !o.cancel(chunk) {
      var rest := Chunks(o, j, chunk + PerChunk(j));
      MoreChunks(o, j, s, chunk);
      ChunksAre(o, j, ChunkScan(o, j, s, chunk), chunk + PerChunk(j));
      RowAfter(o, j, chunk, rest);
      Distribute(|rest|, 1, PerChunk(j));
    } else {
      LastChunks(o, j, s, chunk);
      ShortRow(o, j, chunk);
    }
  }

  lemma ShortRow(o: Oracles, j: Job, chunk: nat)
    requires ValidJob(j)
    ensures InRow(o, j, chunk, [])
    ensures IsChunk(j, chunk) && o.readable(ReadFrom(j, chunk)) ==> InRow(o, j, chunk, [chunk])
  {
    hide PerChunk, ReadFrom;
  }

  lemma {:induction false} SectorsOfChunks(o: Oracles, j: Job, chunk: nat, x: Sector)
    requires ValidJob(j) && (chunk == 0 || chunk >= PerChunk(j))
    ensures x in Sectors(o, j, chunk) <==>
            exists c :: c in Chunks(o, j, chunk) && IsChunk(j, c) && x in ChunkSectorList(j, c)
    decreases j.sectors - chunk
  {
    hide ReadFrom, PerChunk, ChunkSectorList, Chunks, Scan, Sectors;
    if chunk < j.sectors && o.readable(ReadFrom(j, chunk)) && !o.cancel(chunk) {
      MoreChunks(o, j, INITIAL, chunk);
      SectorsOfChunks(o, j, chunk + PerChunk(j), x);
    } else {
      LastChunks(o, j, INITIAL, chunk);
    }
  }

  lemma {:induction false} SectorsFromHas(ss: nat, from: nat, n: nat, size: nat, i: nat, x: Sector)
    requires ss > 0 && n * ss <= size
    ensures x in SectorsFrom(ss, from, n, size, i) <==>
            exists m :: i <= m < n && At(ss, from, size, m, x)
    decreases n - i
  {
    if i < n {
      SectorInside(i, n, ss, size);
      SectorsFromHas(ss, from, n, size, i + 1, x);
      assert x == Sector(from + i * ss, size - i * ss) <==> At(ss, from, size, i, x);
    }
  }

  predicate At(ss: nat, from: nat, size: nat, m: nat, x: Sector) {
    x.at == from + m * ss && x.remaining == size - m * ss
  }

  /** Whole chunks of whole sectors. */
  predicate Aligned(j: Job) {
    ValidJob(j) && 65_536 % j.ss == 0
  }

  /** Sector k of the partition, with the bytes of the buffer from its start on.  The first chunk is scanned as a whole;
      of each later one, what lies less than 64 KiB before the end of the bytes from its first sector on is not. */
  ghost predicate IsSector(j: Job, k: nat, x: Sector)
    requires Aligned(j) && k < j.sectors
  {
    var into := k % (524_288 / j.ss);
    var left := Min((j.sectors - (k - into)) * j.ss, 524_288);
    && x.at == j.start + k * j.ss
    && if k < 524_288 / j.ss then x.remaining == left - into * j.ss
       else into * j.ss + 65_536 < left && x.remaining == left - 65_536 - into * j.ss
  }

  lemma AlignedFacts(j: Job, c: nat)
    requires Aligned(j) && IsChunk(j, c) && c % PerChunk(j) == 0
    ensures Skipped(j) * j.ss == 65_536 && PerChunk(j) * j.ss == 524_288
    ensures ChunkCount(j, c) == Min(j.sectors - c, PerChunk(j))
    ensures ChunkBytes(j, c) == ChunkCount(j, c) * j.ss
    ensures c > 0 ==> ReadFrom(j, c) == j.start + c * j.ss - 65_536
  {
    DivTimes(OVERLAP, j.ss);
    ModMul(OVERLAP, 8, j.ss);
    DivTimes(CHUNK, j.ss);
    var left := j.sectors - c;
    ModOfMultiple(left, j.ss);
    MulNonNeg(left, j.ss);
  }

  lemma LessTimes(a: nat, b: nat, d: nat)
    requires d > 0
    ensures a < b <==> a * d < b * d
    ensures Min(a * d, b * d) == Min(a, b) * d
  {
    Distribute(a, b - a, d);
    MulAtLeast(b - a, d);
  }

  /** Sector k, in terms of the chunk c it belongs to. */
  lemma SectorOfChunk(j: Job, c: nat, k: nat, x: Sector)
    requires Aligned(j) && IsChunk(j, c) && c % PerChunk(j) == 0 && c <= k < c + PerChunk(j) && k < j.sectors
    ensures IsSector(j, k, x) <==>
              var end := ChunkCount(j, c) * j.ss;
              && x.at == j.start + k * j.ss
              && if c == 0 then x.remaining == end - k * j.ss
                 else (k - c) * j.ss + 65_536 < end && x.remaining == end - 65_536 - (k - c) * j.ss
  {
    var per, n := PerChunk(j), ChunkCount(j, c);
    hide ChunkCount;
    AlignedFacts(j, c);
    DivModUnique(k, c / per, per, k - c);
    LessTimes(j.sectors - c, per, j.ss);
  }

  /** A sector of a chunk that is scanned. */
  lemma ChunkHas(j: Job, c: nat, k: nat, m: nat, x: Sector)
    requires Aligned(j) && IsChunk(j, c) && c % PerChunk(j) == 0 && c <= k < c + PerChunk(j) && k < j.sectors
    requires m == if c == 0 then k else k - c + Skipped(j)
    ensures At(j.ss, ReadFrom(j, c), ChunkBytes(j, c), m, x) && m < ChunkCount(j, c) <==> IsSector(j, k, x)
  {
    var n, ss := ChunkCount(j, c), j.ss;
    AlignedFacts(j, c);
    SectorOfChunk(j, c, k, x);
    hide PerChunk, Skipped, ReadFrom, ChunkCount, ChunkBytes, IsSector;
    LessTimes(m, n, ss);
    Distribute(k - c, Skipped(j), ss);
    Distribute(k - c, c, ss);
  }

  lemma InChunk(j: Job, c: nat, x: Sector)
    requires Aligned(j) && IsChunk(j, c) && c % PerChunk(j) == 0
    ensures x in ChunkSectorList(j, c) <==>
              exists k :: c <= k < c + PerChunk(j) && k < j.sectors && IsSector(j, k, x)
  {
    hide PerChunk, Skipped, ReadFrom, ChunkCount, ChunkBytes, IsSector, At, SectorsFrom;
    var ss, from, size, n := j.ss, ReadFrom(j, c), ChunkBytes(j, c), ChunkCount(j, c);
    var first := if c == 0 then 0 else Skipped(j);
    SectorsFromHas(ss, from, n, size, first, x);
    Counts(j, c);
    if x in ChunkSectorList(j, c) {
      var m :| first <= m < n && At(ss, from, size, m, x);
      ChunkHas(j, c, c + m - first, m, x);
    }
    if k :| c <= k < c + PerChunk(j) && k < j.sectors && IsSector(j, k, x) {
      ChunkHas(j, c, k, k - c + first, x);
    }
  }

  /** The sectors a scan from the start looks at, when everything can be read. */
  lemma WhichSectors(o: Oracles, j: Job, x: Sector)
    requires Aligned(j) && forall c :: o.readable(c) && !o.cancel(c)
    ensures x in Sectors(o, j, 0) <==> exists k :: 0 <= k < j.sectors && IsSector(j, k, x)
  {
    hide PerChunk, Sectors, ChunkSectorList, IsSector, Scan, Chunks;
    var per, cs := PerChunk(j), Chunks(o, j, 0);
    SectorsOfChunks(o, j, 0, x);
    ChunksAre(o, j, INITIAL, 0);
    if x in Sectors(o, j, 0) {
      var c :| c in cs && IsChunk(j, c) && x in ChunkSectorList(j, c);
      var m :| 0 <= m < |cs| && cs[m] == c;
      ModOfMultiple(m, per);
      InChunk(j, c, x);
    }
    if k: nat :| k < j.sectors && IsSector(j, k, x) {
      DivTimes(k, per);
      var m := k / per;
      var c := m * per;
      LessTimes(m, |cs|, per);
      assert cs[m] == c;
      ModOfMultiple(m, per);
      InChunk(j, c, x);
    }
  }

  /** Some scan from the start looks at sector k. */
  ghost predicate LookedAt(o: Oracles, j: Job, k: nat)
    requires ValidJob(j)
  {
    exists x :: x in Sectors(o, j, 0) && x.at == j.start + k * j.ss
  }

  /** All sectors are looked at exactly when the partition is no longer than one chunk; otherwise at least the last one
      is not. */
  lemma AllSectorsIffOneChunk(o: Oracles, j: Job)
    requires Aligned(j) && forall c :: o.readable(c) && !o.cancel(c)
    ensures (forall k :: 0 <= k < j.sectors ==> LookedAt(o, j, k)) <==> j.sectors * j.ss <= 524_288
  {
    hide LookedAt;
    var per := PerChunk(j);
    DivTimes(CHUNK, j.ss);
    ModMul(OVERLAP, 8, j.ss);
    assert per * j.ss == 524_288;
    hide PerChunk;
    LessTimes(per, j.sectors, j.ss);
    if j.sectors <= per {
      forall k | 0 <= k < j.sectors
        ensures LookedAt(o, j, k)
      {
        FirstChunkSeen(o, j, k);
      }
    } else {
      LastMissed(o, j);
      assert !LookedAt(o, j, j.sectors - 1);
    }
  }

  lemma FirstChunkSeen(o: Oracles, j: Job, k: nat)
    requires Aligned(j) && (forall c :: o.readable(c) && !o.cancel(c)) && k < j.sectors <= PerChunk(j)
    ensures LookedAt(o, j, k)
  {
    hide Sectors;
    SmallMod(k, PerChunk(j));
    DivTimes(CHUNK, j.ss);
    LessTimes(j.sectors, PerChunk(j), j.ss);
    LessTimes(k, j.sectors, j.ss);
    var x := Sector(j.start + k * j.ss, j.sectors * j.ss - k * j.ss);
    assert IsSector(j, k, x);
    WhichSectors(o, j, x);
  }

  lemma LastMissed(o: Oracles, j: Job)
    requires Aligned(j) && (forall c :: o.readable(c) && !o.cancel(c)) && j.sectors > PerChunk(j)
    ensures !LookedAt(o, j, j.sectors - 1)
  {
    hide Sectors, IsSector;
    var last := j.sectors - 1;
    forall x | x in Sectors(o, j, 0)
      ensures x.at != j.start + last * j.ss
    {
      WhichSectors(o, j, x);
      var k :| 0 <= k < j.sectors && IsSector(j, k, x);
      AtPlace(j, k, x);
      LessTimes(k, last, j.ss);
      if k == last {
        NotLast(j, x);
      }
    }
  }

  lemma AtPlace(j: Job, k: nat, x: Sector)
    requires Aligned(j) && k < j.sectors && IsSector(j, k, x)
    ensures x.at == j.start + k * j.ss
  {
  }

  lemma NotLast(j: Job, x: Sector)
    requires Aligned(j) && j.sectors > PerChunk(j)
    ensures !IsSector(j, j.sectors - 1, x)
  {
    var k, per := j.sectors - 1, PerChunk(j);
    var into := k % per;
    Distribute(into, 1, j.ss);
    DivTimes(OVERLAP, j.ss);
    MulNonNeg(into, j.ss);
  }
}
