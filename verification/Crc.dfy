/** src/core/crc.c: the table-driven CRC-32, and src/formats/file_ace.c: its use in chunks. */
module Crc {
  import opened Disks
  import opened Words

  const POLY: bv32 := 0xEDB88320

  /** One bit of the division by the reflected polynomial. */
  function Step(c: bv32): bv32 {
    if Odd(c) then Xor(Half(c), POLY) else Half(c)
  }

  function Steps(c: bv32, n: nat): bv32
    decreases n
  {
    if n == 0 then c else Steps(Step(c), n - 1)
  }

  /** Feed the n low bits of v, least significant first: the order in which section 8 of RFC 1952
      puts the bits of a byte into the division. */
  function FeedBits(c: bv32, v: bv32, n: nat): bv32
    decreases n
  {
    if n == 0 then c else FeedBits(Step(if Odd(v) then Xor(c, 1) else c), Half(v), n - 1)
  }

  /** The register after the bits of `buf`, starting from `seed`: one bit at a time. */
  function Crc(buf: seq<byte>, seed: bv32): bv32
    decreases |buf|
  {
    if |buf| == 0 then seed else Crc(buf[1..], FeedBits(seed, Word(buf[0]), 8))
  }

  /** The CRC-32 of section 8 of RFC 1952: complemented at the start and at the end. */
  function Crc32(buf: seq<byte>): bv32 {
    Xor(Crc(buf, 0xFFFF_FFFF), 0xFFFF_FFFF)
  }

  // ----- the step is linear and invertible -----

  lemma StepLinear(x: bv32, y: bv32)
    ensures Step(Xor(x, y)) == Xor(Step(x), Step(y))
  {
    hide Xor, Half, Odd;
    var p, hx, hy := POLY, Half(x), Half(y);
    HalfXor(x, y);
    OddXor(x, y);
    XorRules(hx, hy, p);
    XorRules(hx, p, hy);
    XorRules(Xor(hx, p), hy, p);
    XorRules(p, hy, p);
    XorRules(hx, p, Xor(hy, p));
    XorRules(hy, p, p);
    XorRules(p, hy, 0);
    XorSelf(hx, p);
    XorSelf(hy, p);
    XorSelf(p, hy);
  }

  lemma {:induction false} StepsLinear(x: bv32, y: bv32, n: nat)
    ensures Steps(Xor(x, y), n) == Xor(Steps(x, n), Steps(y, n))
    decreases n
  {
    hide Xor, Half, Odd, Step;
    if n > 0 {
      StepLinear(x, y);
      StepsLinear(Step(x), Step(y), n - 1);
    }
  }

  function Unstep(c: bv32): bv32 {
    if c & 0x8000_0000 != 0 then ((c ^ POLY) << 1) | 1 else c << 1
  }

  lemma UnstepStep(x: bv32)
    ensures Unstep(Step(x)) == x
  {
  }

  lemma {:induction false} StepsInjective(x: bv32, y: bv32, n: nat)
    requires Steps(x, n) == Steps(y, n)
    ensures x == y
    decreases n
  {
    hide Xor, Half, Odd, Step, Unstep;
    if n > 0 {
      StepsInjective(Step(x), Step(y), n - 1);
      UnstepStep(x);
      UnstepStep(y);
    }
  }

  lemma {:induction false} EvenSteps(v: bv32, n: nat)
    requires EvenFor(v, n)
    ensures Steps(v, n) == Shifts(v, n)
    decreases n
  {
    hide Xor, Half, Odd;
    if n > 0 {
      EvenSteps(Half(v), n - 1);
    }
  }

  lemma OneBit(c: bv32, v: bv32)
    ensures Step(Xor(c, v)) == Xor(Step(if Odd(v) then Xor(c, 1) else c), Half(v))
  {
    hide Xor, Half, Odd, Step;
    if Odd(v) {
      var even := Xor(v, 1);
      DropBit(v);
      XorRules(c, 1, even);
      StepLinear(Xor(c, 1), even);
      EvenStep(even);
    } else {
      StepLinear(c, v);
      EvenStep(v);
    }
  }

  lemma EvenStep(v: bv32)
    requires !Odd(v)
    ensures Step(v) == Half(v)
  {
  }

  /** Dividing with the message already added in is the same as adding it bit by bit. */
  lemma {:induction false} FeedBitsIsSteps(c: bv32, v: bv32, n: nat)
    ensures Steps(Xor(c, v), n) == Xor(FeedBits(c, v, n), Shifts(v, n))
    decreases n
  {
    hide Xor, Half, Odd, Step;
    if n > 0 {
      OneBit(c, v);
      FeedBitsIsSteps(Step(if Odd(v) then Xor(c, 1) else c), Half(v), n - 1);
    }
  }

  lemma FeedByteIsSteps(c: bv32, b: byte)
    ensures FeedBits(c, Word(b), 8) == Steps(Xor(c, Word(b)), 8)
  {
    hide Xor, Half, Odd, Step, Word, LowByte, HighBytes;
    WordIsByte(b);
    ByteParts(Word(b));
    FeedBitsIsSteps(c, Word(b), 8);
    XorSelf(FeedBits(c, Word(b), 8), 0);
  }

  // ----- the table -----

  /** make_crc32_table: entry i is i pushed through eight steps. */
  function TableEntry(i: bv32): bv32 {
    Steps(i, 8)
  }

  /** One table look-up does the work of eight steps. */
  lemma LookUp(x: bv32)
    ensures Steps(x, 8) == Xor(TableEntry(LowByte(x)), HighBytes(x))
  {
    hide Xor, Half, Odd, Step, LowByte, HighBytes;
    ByteParts(x);
    var rest := Xor(x, LowByte(x));
    StepsLinear(LowByte(x), rest, 8);
    EvenSteps(rest, 8);
  }

  ghost predicate IsTable(tab: array<bv32>)
    reads tab
  {
    tab.Length == 256 && forall i :: 0 <= i < 256 ==> tab[i] == TableEntry(Word(i))
  }

  /** make_crc32_table(0xEDB88320), which the comment beside crc32_tab names as its definition. */
  method MakeCrc32Table() returns (tab: array<bv32>)
    ensures IsTable(tab) && fresh(tab)
  {
    hide Word, Xor, Half, Odd;
    tab := new bv32[256](_ => 0);
    var i := 0;
    while i < 256
      invariant 0 <= i <= 256
      invariant forall k :: 0 <= k < i ==> tab[k] == TableEntry(Word(k))
    {
      var r := Word(i);
      var j := 8;
      while j > 0
        invariant 0 <= j <= 8 && Steps(r, j) == TableEntry(Word(i))
      {
        r := if Odd(r) then Xor(Half(r), POLY) else Half(r);
        j := j - 1;
      }
      tab[i] := r;
      i := i + 1;
    }
  }

  /** get_crc32 computes the bit-at-a-time CRC. */
  method GetCrc32(tab: array<bv32>, buf: seq<byte>, seed: bv32) returns (crc: bv32)
    requires IsTable(tab)
    ensures crc == Crc(buf, seed)
  {
    hide Word, Step, Xor, HighBytes, LowByte, Index, Steps, FeedBits;
    crc := seed;
    var i := 0;
    while i < |buf|
      invariant 0 <= i <= |buf|
      invariant Crc(buf[i..], crc) == Crc(buf, seed)
    {
      var x := Xor(crc, Word(buf[i]));
      assert buf[i..][0] == buf[i] && buf[i..][1..] == buf[i + 1..];
      FeedByteIsSteps(crc, buf[i]);
      LookUp(x);
      IndexIsLowByte(x);
      var index := Index(x);
      HighBytesXorWord(crc, buf[i]);
      crc := Xor(tab[index], HighBytes(crc));
      i := i + 1;
    }
  }

  /** Feeding a message in pieces, with the register carried over, is feeding it whole. */
  lemma {:induction false} CrcConcat(a: seq<byte>, b: seq<byte>, seed: bv32)
    ensures Crc(a + b, seed) == Crc(b, Crc(a, seed))
    decreases |a|
  {
    hide FeedBits;
    if |a| == 0 {
      assert a + b == b;
    } else {
      assert (a + b)[0] == a[0] && (a + b)[1..] == a[1..] + b;
      CrcConcat(a[1..], b, FeedBits(seed, Word(a[0]), 8));
    }
  }

  const BUF_SIZE: nat := 4096

  /** check_ace_crc: reads `len` bytes of the file at `pos` in pieces; 0 means the checksum is right. */
  method CheckAceCrc(tab: array<bv32>, file: seq<byte>, pos: nat, len: nat, crc32Low: bv32) returns (res: int)
    requires IsTable(tab) && pos <= |file|
    ensures res == 0 || res == 1
    ensures res == 0 <==> pos + len <= |file| && crc32Low == LowHalf(Crc(file[pos..pos + len], 0xFFFF_FFFF))
  {
    hide Crc, IsTable, LowHalf;
    var crc32: bv32 := 0xFFFF_FFFF;
    var remaining := len;
    var at := pos;
    CrcOfNothing(file[pos..pos], crc32);
    while remaining > 0
      invariant 0 <= remaining && at + remaining == pos + len && pos <= at <= |file|
      invariant crc32 == Crc(file[pos..at], 0xFFFF_FFFF)
      decreases remaining
    {
      var count := if remaining > BUF_SIZE then BUF_SIZE else remaining;
      if at + count > |file| {
        // truncated file
        return 1;
      }
      crc32 := GetCrc32(tab, file[at..at + count], crc32);
      CrcConcat(file[pos..at], file[at..at + count], 0xFFFF_FFFF);
      assert file[pos..at] + file[at..at + count] == file[pos..at + count];
      remaining := remaining - count;
      at := at + count;
    }
    if crc32Low != LowHalf(crc32) {
      return 1;
    }
    return 0;
  }

  lemma CrcOfNothing(buf: seq<byte>, seed: bv32)
    requires |buf| == 0
    ensures Crc(buf, seed) == seed
  {
  }

  // ----- what the checksum is good for -----

  lemma XorCancels(a: bv32, b: bv32, c: bv32)
    requires Xor(a, c) == Xor(b, c)
    ensures a == b
  {
    XorSelf(a, c);
    XorSelf(b, c);
  }

  lemma {:induction false} CrcInjectiveInSeed(buf: seq<byte>, s: bv32, t: bv32)
    requires Crc(buf, s) == Crc(buf, t)
    ensures s == t
    decreases |buf|
  {
    hide FeedBits, Word, Xor, Steps;
    if |buf| > 0 {
      var w := Word(buf[0]);
      CrcInjectiveInSeed(buf[1..], FeedBits(s, w, 8), FeedBits(t, w, 8));
      FeedByteIsSteps(s, buf[0]);
      FeedByteIsSteps(t, buf[0]);
      StepsInjective(Xor(s, w), Xor(t, w), 8);
      XorCancels(s, t, w);
    }
  }

  /** Changing one byte of a message always changes its CRC. */
  lemma OneByteChangesCrc(buf: seq<byte>, k: nat, b: byte, seed: bv32)
    requires k < |buf| && b != buf[k]
    ensures Crc(buf[k := b], seed) != Crc(buf, seed)
  {
    hide FeedBits, Word, Xor, Steps;
    var front, back := buf[..k], buf[k + 1..];
    var c := Crc(front, seed);
    assert buf == front + [buf[k]] + back && buf[k := b] == front + [b] + back;
    CrcAround(front, buf[k], back, seed);
    CrcAround(front, b, back, seed);
    if Crc(buf[k := b], seed) == Crc(buf, seed) {
      CrcInjectiveInSeed(back, FeedBits(c, Word(b), 8), FeedBits(c, Word(buf[k]), 8));
      FeedByteIsSteps(c, b);
      FeedByteIsSteps(c, buf[k]);
      StepsInjective(Xor(c, Word(b)), Xor(c, Word(buf[k])), 8);
      XorRules(c, Word(b), 0);
      XorRules(c, Word(buf[k]), 0);
      XorCancels(Word(b), Word(buf[k]), c);
      WordInjective(b, buf[k]);
      assert false;
    }
  }

  lemma CrcAround(front: seq<byte>, b: byte, back: seq<byte>, seed: bv32)
    ensures Crc(front + [b] + back, seed) == Crc(back, FeedBits(Crc(front, seed), Word(b), 8))
  {
    CrcConcat(front + [b], back, seed);
    CrcConcat(front, [b], seed);
    assert Crc([b], Crc(front, seed)) == Crc([b][1..], FeedBits(Crc(front, seed), Word(b), 8));
  }
}
