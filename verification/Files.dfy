/** Little-endian numbers, as write_le16/32/64 and read_le16/32/64 in src/core/session.c:64-105 and
    src/core/backup.c write and read them. */
module LittleEndian {
  import opened Arith
  import opened Disks

  /** The n low-order bytes of v, least significant first. */
  function Le(n: nat, v: nat): (b: seq<byte>)
    ensures |b| == n
  {
    if n == 0 then [] else [v % 256] + Le(n - 1, v / 256)
  }

  function FromLe(b: seq<byte>): nat {
    if |b| == 0 then 0 else b[0] + 256 * FromLe(b[1..])
  }

  /** 256 to the power n. */
  function Limit(n: nat): (r: nat)
    ensures r > 0
  {
    if n == 0 then 1 else 256 * Limit(n - 1)
  }

  lemma {:induction false} LeRoundTrip(n: nat, v: nat)
    requires v < Limit(n)
    ensures FromLe(Le(n, v)) == v
  {
    if n > 0 {
      LeRoundTrip(n - 1, v / 256);
      assert Le(n, v)[1..] == Le(n - 1, v / 256);
    }
  }

  /** The i-th byte is the i-th digit to the base 256. */
  lemma {:induction false} LeDigit(n: nat, v: nat, i: nat)
    requires i < n
    ensures Le(n, v)[i] == v / Limit(i) % 256
  {
    if i > 0 {
      LeDigit(n - 1, v / 256, i - 1);
      DivTwice(v, 256, Limit(i - 1));
    }
  }

  lemma DivTwice(v: nat, a: nat, b: nat)
    requires a > 0 && b > 0
    ensures v / a / b == v / (a * b)
  {
    var q, x, y := v / a / b, v % a, v / a % b;
    assert v == a * (v / a) + x && v / a == b * q + y;
    assert a * (b * q + y) == q * (a * b) + a * y;
    assert a * y + a <= a * b by {
      MulAtLeast(b - y, a);
      Distribute(y, b - y, a);
    }
    MulNonNeg(a, y);
    DivModUnique(v, q, a * b, a * y + x);
  }

  lemma {:induction false} FromLeRoundTrip(b: seq<byte>)
    ensures FromLe(b) < Limit(|b|) && Le(|b|, FromLe(b)) == b
  {
    if |b| > 0 {
      var low, high := b[0], FromLe(b[1..]);
      FromLeRoundTrip(b[1..]);
      assert (low + 256 * high) % 256 == low && (low + 256 * high) / 256 == high;
      assert b == [low] + b[1..];
    }
  }

  lemma Limits()
    ensures Limit(2) == 0x1_0000 && Limit(4) == 0x1_0000_0000 && Limit(8) == 0x1_0000_0000_0000_0000
  {
    assert Limit(1) == 256;
    assert Limit(3) == 0x100_0000;
    assert Limit(5) == 0x100_0000_0000;
    assert Limit(6) == 0x1_0000_0000_0000;
    assert Limit(7) == 0x100_0000_0000_0000;
  }

  // ----- runs of fixed-width fields -----

  datatype Field = Field(width: nat, value: nat)

  /** The fields one after the other. */
  function Pack(fs: seq<Field>): seq<byte> {
    if |fs| == 0 then [] else Le(fs[0].width, fs[0].value) + Pack(fs[1..])
  }

  function Total(widths: seq<nat>): nat {
    if |widths| == 0 then 0 else widths[0] + Total(widths[1..])
  }

  lemma PackFirst(x: Field, fs: seq<Field>)
    ensures Pack([x] + fs) == Le(x.width, x.value) + Pack(fs)
  {
    assert ([x] + fs)[1..] == fs;
  }

  lemma {:induction false} PackConcat(a: seq<Field>, b: seq<Field>)
    ensures Pack(a + b) == Pack(a) + Pack(b)
  {
    if |a| == 0 {
      assert a + b == b;
    } else {
      assert (a + b)[1..] == a[1..] + b;
      PackConcat(a[1..], b);
    }
  }

  lemma {:induction false} TotalConcat(a: seq<nat>, b: seq<nat>)
    ensures Total(a + b) == Total(a) + Total(b)
  {
    if |a| == 0 {
      assert a + b == b;
    } else {
      assert (a + b)[1..] == a[1..] + b;
      TotalConcat(a[1..], b);
    }
  }

  lemma TotalOfThree(a: nat, b: nat, c: nat)
    ensures Total([a, b, c]) == a + b + c
  {
    assert [c][1..] == [] && Total([c]) == c;
    assert [b, c][1..] == [c] && Total([b, c]) == b + c;
    assert [a, b, c][1..] == [b, c];
  }

  lemma TotalOfFour(a: nat, b: nat, c: nat, d: nat)
    ensures Total([a, b, c, d]) == a + b + c + d
  {
    TotalOfThree(b, c, d);
    assert [a, b, c, d][1..] == [b, c, d];
  }

  lemma Within(b: seq<byte>, lo: nat, hi: nat, i: nat, j: nat)
    requires i <= j && lo + j <= hi <= |b|
    ensures b[lo..hi][i..j] == b[lo + i..lo + j]
  {
    var x, y := b[lo..hi][i..j], b[lo + i..lo + j];
    assert forall k :: 0 <= k < |x| ==> x[k] == b[lo..hi][i + k] == y[k];
  }

  lemma TotalNone(ws: seq<nat>)
    ensures Total(ws[..0]) == 0
  {
  }

  lemma TotalNext(ws: seq<nat>, k: nat)
    requires k < |ws|
    ensures Total(ws[..k + 1]) == Total(ws[..k]) + ws[k]
  {
    assert ws[..k + 1] == ws[..k] + [ws[k]];
    TotalConcat(ws[..k], [ws[k]]);
  }

  /** Where the k-th field is. */
  lemma {:induction false} PackAt(fs: seq<Field>, ws: seq<nat>, k: nat)
    requires |fs| == |ws| && k < |fs| && forall i :: 0 <= i < |fs| ==> fs[i].width == ws[i]
    ensures var at := Total(ws[..k]);
            at + ws[k] <= |Pack(fs)| && Pack(fs)[at..at + ws[k]] == Le(ws[k], fs[k].value)
    decreases k
  {
    hide Le;
    if k > 0 {
      PackAt(fs[1..], ws[1..], k - 1);
      var at := Total(ws[1..][..k - 1]);
      assert ws[..k][1..] == ws[1..][..k - 1];
      assert Pack(fs)[ws[0] + at..ws[0] + at + ws[k]] == Pack(fs[1..])[at..at + ws[k]];
    }
  }

  lemma {:induction false} UnpackAt(ws: seq<nat>, b: seq<byte>, k: nat)
    requires k < |ws| && Total(ws) <= |b|
    ensures var at := Total(ws[..k]); at + ws[k] <= |b| && Unpack(ws, b)[k] == FromLe(b[at..at + ws[k]])
    decreases k
  {
    hide FromLe;
    if k > 0 {
      UnpackAt(ws[1..], b[ws[0]..], k - 1);
      var at := Total(ws[1..][..k - 1]);
      assert ws[..k][1..] == ws[1..][..k - 1];
      assert b[ws[0]..][at..at + ws[k]] == b[ws[0] + at..ws[0] + at + ws[k]];
    }
  }

  /** The values of fields of the given widths at the start of b. */
  function Unpack(widths: seq<nat>, b: seq<byte>): (r: seq<nat>)
    requires Total(widths) <= |b|
    ensures |r| == |widths|
  {
    if |widths| == 0 then [] else [FromLe(b[..widths[0]])] + Unpack(widths[1..], b[widths[0]..])
  }

  lemma TotalStep(ws: seq<nat>)
    ensures |ws| > 0 ==> Total(ws) == ws[0] + Total(ws[1..])
  {
  }

  lemma UnpackStep(ws: seq<nat>, b: seq<byte>)
    requires |ws| > 0 && Total(ws) <= |b|
    ensures Total(ws[1..]) <= |b[ws[0]..]| && Unpack(ws, b) == [FromLe(b[..ws[0]])] + Unpack(ws[1..], b[ws[0]..])
  {
  }

  lemma {:induction false} PackLength(fs: seq<Field>, widths: seq<nat>)
    requires |fs| == |widths| && forall i :: 0 <= i < |fs| ==> fs[i].width == widths[i]
    ensures |Pack(fs)| == Total(widths)
  {
    if |fs| > 0 {
      PackLength(fs[1..], widths[1..]);
    }
  }

  /** fs holds the values vs in fields of the given widths, none of them truncated. */
  ghost predicate Holds(fs: seq<Field>, widths: seq<nat>, vs: seq<nat>) {
    && |fs| == |widths| == |vs|
    && forall i :: 0 <= i < |fs| ==> fs[i] == Field(widths[i], vs[i]) && vs[i] < Limit(widths[i])
  }

  /** Reading the fields back. */
  lemma {:induction false} UnpackOfPack(fs: seq<Field>, widths: seq<nat>, vs: seq<nat>, rest: seq<byte>)
    requires Holds(fs, widths, vs)
    ensures |Pack(fs)| == Total(widths) && Unpack(widths, Pack(fs) + rest) == vs
  {
    hide Le, FromLe, Limit;
    if |fs| > 0 {
      var w, b := widths[0], Pack(fs) + rest;
      assert fs[0] == Field(w, vs[0]);
      UnpackOfPack(fs[1..], widths[1..], vs[1..], rest);
      LeRoundTrip(w, vs[0]);
      Split(Le(w, vs[0]), Pack(fs[1..]), rest);
      assert vs == [vs[0]] + vs[1..];
    }
  }

  lemma Split<T>(a: seq<T>, b: seq<T>, c: seq<T>)
    ensures (a + b + c)[..|a|] == a && (a + b + c)[|a|..] == b + c
    ensures a + (b + c) == a + b + c
  {
  }

  // ----- signed values, stored through a cast to the unsigned type of the same width -----

  /** v fits a signed integer of n bytes. */
  predicate FitsSigned(n: nat, v: int) {
    0 <= 2 * v + Limit(n) && 2 * v < Limit(n)
  }

  function ToUnsigned(n: nat, v: int): (u: nat)
    requires FitsSigned(n, v)
    ensures u < Limit(n)
  {
    if v < 0 then v + Limit(n) else v
  }

  function ToSigned(n: nat, u: nat): int {
    if 2 * u < Limit(n) then u else u - Limit(n)
  }

  lemma SignedRoundTrip(n: nat, v: int)
    requires FitsSigned(n, v)
    ensures ToSigned(n, ToUnsigned(n, v)) == v
  {
  }

  /** Reading the i-th field. */
  lemma FieldStep(widths: seq<nat>, i: nat, b: seq<byte>, before: seq<nat>)
    requires i < |widths|
    ensures Total(widths[i..]) == widths[i] + Total(widths[i + 1..])
    ensures Total(widths[i..]) <= |b| ==>
              && before + Unpack(widths[i..], b)
                 == before + [FromLe(b[..widths[i]])] + Unpack(widths[i + 1..], b[widths[i]..])
  {
    hide Total, Unpack, FromLe;
    var ws := widths[i..];
    assert ws[1..] == widths[i + 1..];
    TotalStep(ws);
    if Total(ws) <= |b| {
      UnpackStep(ws, b);
    }
  }

  lemma NoFields(widths: seq<nat>, b: seq<byte>)
    ensures widths[0..] == widths && Total(widths[|widths|..]) == 0 && Unpack(widths[|widths|..], b) == []
  {
  }
}

/** A stdio stream over a growing byte sequence. */
module Files {
  import opened Disks
  import opened LittleEndian

  class File {
    var data: seq<byte>
    var pos: nat
    /** Bytes the device can hold: a write that does not fit fails. */
    const limit: nat

    constructor (data: seq<byte>, limit: nat)
      ensures this.data == data && pos == 0 && this.limit == limit
    {
      this.data, this.limit := data, limit;
      pos := 0;
    }

    method Fwrite(b: seq<byte>) returns (ok: bool)
      modifies this`data
      ensures ok <==> |old(data)| + |b| <= limit
      ensures ok ==> data == old(data) + b
      ensures !ok ==> data == old(data)
    {
      ok := |data| + |b| <= limit;
      if ok {
        data := data + b;
      }
    }

    /** What is left to read. */
    ghost function Rest(): seq<byte>
      reads this
    {
      if pos <= |data| then data[pos..] else []
    }

    /** fread: fewer bytes than asked for only at the end of the file. */
    method Fread(n: nat) returns (b: seq<byte>)
      modifies this`pos
      ensures b == if |old(Rest())| < n then old(Rest()) else old(Rest())[..n]
      ensures Rest() == old(Rest())[|b|..]
      ensures old(pos) <= |data| ==> pos == old(pos) + |b|
    {
      var end := if pos + n <= |data| then pos + n else if pos <= |data| then |data| else pos;
      b := if pos <= |data| then data[pos..end] else [];
      pos := end;
    }

    /** fread of a run of little-endian fields, giving up at the first one that is cut short. */
    method ReadFields(widths: seq<nat>) returns (ok: bool, values: seq<nat>)
      modifies this`pos
      ensures ok <==> Total(widths) <= |old(Rest())|
      ensures ok ==> values == Unpack(widths, old(Rest())) && Rest() == old(Rest())[Total(widths)..]
    {
      hide Total, Unpack, FromLe;
      values := [];
      ghost var was := Rest();
      ghost var done := 0;
      NoFields(widths, was);
      for i := 0 to |widths|
        invariant done + Total(widths[i..]) == Total(widths) && done <= |was| && Rest() == was[done..]
        invariant Total(widths) <= |was| ==> values + Unpack(widths[i..], Rest()) == Unpack(widths, was)
      {
        ghost var before := Rest();
        FieldStep(widths, i, before, values);
        var b := Fread(widths[i]);
        if |b| < widths[i] {
          return false, [];
        }
        done := done + widths[i];
        assert was[done..] == before[widths[i]..];
        values := values + [FromLe(b)];
      }
      NoFields(widths, Rest());
      ok := true;
    }

    /** A run of write_le calls, giving up at the first one that fails. */
    method WriteFields(fs: seq<Field>) returns (ok: bool)
      requires forall i :: 0 <= i < |fs| ==> fs[i].width in {1, 2, 4, 8}
      modifies this`data
      ensures ok <==> |old(data)| + |Pack(fs)| <= limit || |fs| == 0
      ensures old(data) <= data && (|old(data)| <= limit ==> |data| <= limit)
      ensures ok ==> data == old(data) + Pack(fs)
    {
      hide Le, Limit;
      for i := 0 to |fs|
        invariant data + Pack(fs[i..]) == old(data) + Pack(fs)
        invariant old(data) <= data && (i > 0 ==> |data| <= limit)
      {
        assert fs[i..][1..] == fs[i + 1..];
        ghost var before := data;
        ok := WriteField(fs[i]);
        if !ok {
          return;
        }
        Split(before, Le(fs[i].width, fs[i].value), Pack(fs[i + 1..]));
      }
      ok := true;
    }

    method WriteField(f: Field) returns (ok: bool)
      requires f.width in {1, 2, 4, 8}
      modifies this`data
      ensures ok <==> |old(data)| + f.width <= limit
      ensures data == if ok then old(data) + Le(f.width, f.value) else old(data)
    {
      if f.width == 8 {
        ok := WriteLe64(f.value);
      } else if f.width == 4 {
        ok := WriteLe32(f.value);
      } else if f.width == 2 {
        ok := WriteLe16(f.value);
      } else {
        assert Le(1, f.value) == [f.value % 256];
        ok := Fwrite([f.value % 256]);
      }
    }

    /** write_le64: the bytes are peeled off in a loop. */
    method WriteLe64(v: nat) returns (ok: bool)
      modifies this`data
      ensures ok <==> |old(data)| + 8 <= limit
      ensures data == if ok then old(data) + Le(8, v) else old(data)
    {
      var b: seq<byte> := [];
      var rest := v;
      for i := 0 to 8
        invariant b + Le(8 - i, rest) == Le(8, v)
      {
        assert b + Le(8 - i, rest) == (b + [rest % 256]) + Le(8 - i - 1, rest / 256);
        b := b + [rest % 256];
        rest := rest / 256;
      }
      ok := Fwrite(b);
    }

    method WriteLe32(v: nat) returns (ok: bool)
      modifies this`data
      ensures ok <==> |old(data)| + 4 <= limit
      ensures data == if ok then old(data) + Le(4, v) else old(data)
    {
      var b: seq<byte> := [v % 256, v / 256 % 256, v / 256 / 256 % 256, v / 256 / 256 / 256 % 256];
      assert Le(2, v / 256 / 256) == [v / 256 / 256 % 256, v / 256 / 256 / 256 % 256];
      assert b == Le(4, v);
      ok := Fwrite(b);
    }

    method WriteLe16(v: nat) returns (ok: bool)
      modifies this`data
      ensures ok <==> |old(data)| + 2 <= limit
      ensures data == if ok then old(data) + Le(2, v) else old(data)
    {
      ok := Fwrite([v % 256, v / 256 % 256]);
    }
  }
}
