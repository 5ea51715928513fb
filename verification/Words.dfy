/** 32-bit word operations.  The CRC proofs use only the facts proved about them here. */
module Words {
  import opened Bits

  function Xor(a: bv32, b: bv32): bv32 { a ^ b }

  function Half(a: bv32): bv32 { a >> 1 }

  predicate Odd(a: bv32) { a & 1 != 0 }

  function LowByte(a: bv32): bv32 { a & 0xFF }

  function LowHalf(a: bv32): bv32 { a & 0xFFFF }

  function HighBytes(a: bv32): bv32 { a >> 8 }

  lemma XorRules(a: bv32, b: bv32, c: bv32)
    ensures Xor(Xor(a, b), c) == Xor(a, Xor(b, c)) && Xor(a, b) == Xor(b, a)
  {
  }

  lemma XorSelf(a: bv32, b: bv32)
    ensures Xor(a, 0) == a && Xor(a, a) == 0 && Xor(Xor(a, b), b) == a
  {
  }

  lemma HalfXor(a: bv32, b: bv32)
    ensures Half(Xor(a, b)) == Xor(Half(a), Half(b))
  {
  }

  lemma OddXor(a: bv32, b: bv32)
    ensures Odd(Xor(a, b)) <==> (Odd(a) != Odd(b))
  {
  }

  function Half8(a: bv32): bv32 {
    Half(Half(Half(Half(Half(Half(Half(Half(a))))))))
  }

  lemma Half8Parts(a: bv32)
    ensures Half8(Xor(a, LowByte(a))) == HighBytes(a) && Half8(LowByte(a)) == 0
    ensures a == Xor(LowByte(a), Xor(a, LowByte(a)))
    ensures Xor(a, LowByte(a)) & 0xFF == 0
  {
  }

  lemma Shifts8(a: bv32)
    ensures Shifts(a, 8) == Half8(a)
  {
    hide Half;
    FourShifts(a, 4);
    FourShifts(Half(Half(Half(Half(a)))), 0);
  }

  lemma FourShifts(a: bv32, n: nat)
    ensures Shifts(a, n + 4) == Shifts(Half(Half(Half(Half(a)))), n)
  {
    hide Half;
    var a1 := Half(a);
    var a2 := Half(a1);
    var a3 := Half(a2);
    assert Shifts(a, n + 4) == Shifts(a1, n + 3);
    assert Shifts(a1, n + 3) == Shifts(a2, n + 2);
    assert Shifts(a2, n + 2) == Shifts(a3, n + 1);
  }

  /** m has its n low bits set. */
  predicate Ones(m: bv32, n: nat)
    decreases n
  {
    n == 0 || (Odd(m) && Ones(Half(m), n - 1))
  }

  lemma MaskStep(a: bv32, m: bv32)
    requires a & m == 0 && Odd(m)
    ensures !Odd(a) && Half(a) & Half(m) == 0
  {
  }

  lemma {:induction false} MaskedIsEven(a: bv32, m: bv32, n: nat)
    requires a & m == 0 && Ones(m, n)
    ensures EvenFor(a, n)
    decreases n
  {
    hide Half, Odd;
    if n > 0 {
      MaskStep(a, m);
      MaskedIsEven(Half(a), Half(m), n - 1);
    }
  }

  lemma OnesInByte()
    ensures Ones(0xFF, 8)
  {
    assert Ones(0x3, 2);
    assert Ones(0xF, 4);
    assert Ones(0x3F, 6);
  }

  /** A word is its low byte and the rest; the rest shifts down without touching the polynomial. */
  lemma ByteParts(a: bv32)
    ensures var rest := Xor(a, LowByte(a));
            && a == Xor(LowByte(a), rest)
            && Shifts(rest, 8) == HighBytes(a) && Shifts(LowByte(a), 8) == 0 && EvenFor(rest, 8)
  {
    hide Half, Odd, Xor, LowByte, HighBytes, Half8;
    Half8Parts(a);
    Shifts8(LowByte(a));
    Shifts8(Xor(a, LowByte(a)));
    OnesInByte();
    MaskedIsEven(Xor(a, LowByte(a)), 0xFF, 8);
  }

  function Shifts(a: bv32, n: nat): bv32
    decreases n
  {
    if n == 0 then a else Shifts(Half(a), n - 1)
  }

  /** The n low bits of a are zero. */
  predicate EvenFor(a: bv32, n: nat)
    decreases n
  {
    n == 0 || (!Odd(a) && EvenFor(Half(a), n - 1))
  }

  /** The word with these low bits. */
  function BitWord(b0: bool, b1: bool, b2: bool, b3: bool, b4: bool, b5: bool, b6: bool, b7: bool): bv32 {
    (if b0 then 1 else 0) | (if b1 then 2 else 0) | (if b2 then 4 else 0) | (if b3 then 8 else 0)
    | (if b4 then 16 else 0) | (if b5 then 32 else 0) | (if b6 then 64 else 0) | (if b7 then 128 else 0)
  }

  /** The word of a byte value. */
  function Word(b: int): bv32
    requires 0 <= b < 256
  {
    BitWord(Flag(b, 1), Flag(b, 2), Flag(b, 4), Flag(b, 8), Flag(b, 16), Flag(b, 32), Flag(b, 64), Flag(b, 128))
  }

  lemma OneIsOdd()
    ensures Odd(1) && Half(1) == 0
  {
  }

  lemma DropBit(v: bv32)
    requires Odd(v)
    ensures !Odd(Xor(v, 1)) && Half(Xor(v, 1)) == Half(v) && Xor(1, Xor(v, 1)) == v
  {
    hide Xor, Odd, Half;
    OneIsOdd();
    OddXor(v, 1);
    HalfXor(v, 1);
    XorSelf(Half(v), 0);
    XorSelf(v, 1);
    XorRules(1, Xor(v, 1), 0);
  }

  lemma BitWordIsByte(b0: bool, b1: bool, b2: bool, b3: bool, b4: bool, b5: bool, b6: bool, b7: bool)
    ensures LowByte(BitWord(b0, b1, b2, b3, b4, b5, b6, b7)) == BitWord(b0, b1, b2, b3, b4, b5, b6, b7)
  {
  }

  lemma WordIsByte(b: int)
    requires 0 <= b < 256
    ensures LowByte(Word(b)) == Word(b)
  {
    hide Flag, BitWord, LowByte;
    BitWordIsByte(Flag(b, 1), Flag(b, 2), Flag(b, 4), Flag(b, 8), Flag(b, 16), Flag(b, 32), Flag(b, 64), Flag(b, 128));
  }

  /** Bit i of a word. */
  predicate BitOf(a: bv32, mask: bv32) {
    a & mask != 0
  }

  lemma BitsOfBitWord(b0: bool, b1: bool, b2: bool, b3: bool, b4: bool, b5: bool, b6: bool, b7: bool)
    ensures var a := BitWord(b0, b1, b2, b3, b4, b5, b6, b7);
            && BitOf(a, 1) == b0 && BitOf(a, 2) == b1 && BitOf(a, 4) == b2 && BitOf(a, 8) == b3
            && BitOf(a, 16) == b4 && BitOf(a, 32) == b5 && BitOf(a, 64) == b6 && BitOf(a, 128) == b7
  {
  }

  lemma BitWordOfBits(a: bv32)
    ensures BitWord(BitOf(a, 1), BitOf(a, 2), BitOf(a, 4), BitOf(a, 8), BitOf(a, 16), BitOf(a, 32), BitOf(a, 64),
                    BitOf(a, 128))
            == LowByte(a)
  {
  }

  lemma WordInjective(a: int, b: int)
    requires 0 <= a < 256 && 0 <= b < 256 && Word(a) == Word(b)
    ensures a == b
  {
    hide Flag, BitWord, BitOf, OfBits;
    BitsOfBitWord(Flag(a, 1), Flag(a, 2), Flag(a, 4), Flag(a, 8), Flag(a, 16), Flag(a, 32), Flag(a, 64), Flag(a, 128));
    BitsOfBitWord(Flag(b, 1), Flag(b, 2), Flag(b, 4), Flag(b, 8), Flag(b, 16), Flag(b, 32), Flag(b, 64), Flag(b, 128));
    BitsOfByte(a);
    BitsOfByte(b);
  }

  /** The low byte of a word, as an index. */
  function Index(a: bv32): (i: nat)
    ensures i < 256
  {
    OfBits(BitOf(a, 1), BitOf(a, 2), BitOf(a, 4), BitOf(a, 8), BitOf(a, 16), BitOf(a, 32), BitOf(a, 64), BitOf(a, 128))
  }

  lemma IndexIsLowByte(a: bv32)
    ensures Word(Index(a)) == LowByte(a)
  {
    hide Flag, BitWord, BitOf, OfBits, LowByte;
    FlagsOfBits(BitOf(a, 1), BitOf(a, 2), BitOf(a, 4), BitOf(a, 8), BitOf(a, 16), BitOf(a, 32), BitOf(a, 64),
                BitOf(a, 128));
    BitWordOfBits(a);
  }

  lemma ByteKeepsHigh(a: bv32, w: bv32)
    requires LowByte(w) == w
    ensures HighBytes(Xor(a, w)) == HighBytes(a)
  {
  }

  lemma HighBytesXorWord(a: bv32, b: int)
    requires 0 <= b < 256
    ensures HighBytes(Xor(a, Word(b))) == HighBytes(a)
  {
    hide Word, HighBytes, Xor, LowByte;
    WordIsByte(b);
    ByteKeepsHigh(a, Word(b));
  }
}
