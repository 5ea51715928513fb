/** GPT partition names: src/disk/unicode.c. */
module Unicode {
  import opened Disks

  /** A plain char is signed: bytes from 128 are sign-extended to 16 bits. */
  function UnitOf(c: byte): nat {
    if c < 128 then c else 0xFF00 + c
  }

  /** What a unit is shown as. */
  function CharOf(u: nat): byte {
    if u >= 256 then 63 else u
  }

  /** str2UCSle into a field that held `field`: the characters that fit, and a terminator if there is room for it. */
  function Encoded(field: seq<nat>, name: seq<byte>): (r: seq<nat>)
    ensures |r| == |field|
    ensures forall i :: 0 <= i < |r| ==>
              r[i] == if i < |name| then UnitOf(name[i]) else if i == |name| then 0 else field[i]
  {
    seq(|field|, i requires 0 <= i < |field| => if i < |name| then UnitOf(name[i]) else if i
        == |name| then 0 else field[i])
  }

  /** UCSle2str: up to the first terminator. */
  function Decoded(units: seq<nat>): (name: seq<byte>)
    ensures |name| <= |units|
    ensures forall i :: 0 <= i < |name| ==> units[i] != 0 && name[i] == CharOf(units[i])
    ensures |name| < |units| ==> units[|name|] == 0
  {
    if |units| == 0 || units[0] == 0 then [] else [CharOf(units[0])] + Decoded(units[1..])
  }

  /** A name comes back as it was exactly when it fits the field and is ASCII. */
  lemma NameRoundTrip(field: seq<nat>, name: seq<byte>)
    requires 0 !in name
    ensures Decoded(Encoded(field, name)) == name <==>
              |name| <= |field| && forall i :: 0 <= i < |name| ==> name[i] < 128
  {
    var e := Encoded(field, name);
    var d := Decoded(e);
    assert forall i :: 0 <= i < |name| ==> name[i] in name;
    if |name| < |field| {
      assert e[|name|] == 0;
    }
    assert |d| == if |name| <= |field| then |name| else |field|;
    if d == name {
      forall i | 0 <= i < |name|
        ensures name[i] < 128
      {
        assert d[i] == CharOf(e[i]) && e[i] == UnitOf(name[i]);
      }
    }
  }

  /** str2UCSle */
  method Str2UCSle(to: array<nat>, from: seq<byte>) returns (i: nat)
    requires 0 !in from
    modifies to
    ensures to[..] == Encoded(old(to[..]), from) && i == if |from| < to.Length then |from| else to.Length
  {
    i := 0;
    while i < to.Length && i < |from|
      invariant 0 <= i <= to.Length && i <= |from|
      invariant forall k :: 0 <= k < i ==> to[k] == UnitOf(from[k])
      invariant forall k :: i <= k < to.Length ==> to[k] == old(to[k])
    {
      to[i] := UnitOf(from[i]);
      i := i + 1;
    }
    if i < to.Length {
      to[i] := 0;
    }
  }

  /** UCSle2str into a buffer of at least as many bytes: the name, and a terminator if there is room for it. */
  method UCSle2Str(to: array<byte>, from: seq<nat>) returns (i: nat)
    requires |from| <= to.Length
    modifies to
    ensures i == |Decoded(from)| && to[..i] == Decoded(from)
    ensures i < |from| ==> to[i] == 0
    ensures forall k :: (if i < |from| then i + 1 else i) <= k < to.Length ==> to[k] == old(to[k])
  {
    i := 0;
    ghost var name := Decoded(from);
    while i < |from| && from[i] != 0
      invariant 0 <= i <= |name|
      invariant to[..i] == name[..i]
      invariant forall k :: i <= k < to.Length ==> to[k] == old(to[k])
    {
      to[i] := if from[i] >= 256 then 63 else from[i];
      assert i < |name|;
      i := i + 1;
    }
    if i < |from| {
      to[i] := 0;
    }
  }
}
