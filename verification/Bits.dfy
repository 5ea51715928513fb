/** The eight bits of a byte, without bit-vectors. */
module Bits {
  function Bit(b: bool): nat {
    if b then 1 else 0
  }

  function OfBits(b0: bool, b1: bool, b2: bool, b3: bool, b4: bool, b5: bool, b6: bool, b7: bool): (f: nat)
    ensures f < 256 && (!b7 ==> f < 128)
  {
    Bit(b0) + 2 * Bit(b1) + 4 * Bit(b2) + 8 * Bit(b3) + 16 * Bit(b4) + 32 * Bit(b5) + 64 * Bit(b6) + 128 * Bit(b7)
  }

  /** f, shifted down to the bit of weight w. */
  function Above(f: nat, w: nat): nat
    requires w > 0
  {
    f / w
  }

  /** The bit of weight w is set in f. */
  predicate Flag(f: nat, w: nat)
    requires w > 0
  {
    f / w % 2 == 1
  }

  const WEIGHTS: set<nat> := {1, 2, 4, 8, 16, 32, 64, 128}

  lemma Halvings(f: nat)
    ensures f / 2 / 2 == f / 4 && f / 4 / 2 == f / 8 && f / 8 / 2 == f / 16 && f / 16 / 2 == f / 32
    ensures f / 32 / 2 == f / 64 && f / 64 / 2 == f / 128 && f / 128 / 2 == f / 256
  {
  }

  lemma LowBit(b: bool, high: nat)
    ensures (Bit(b) + 2 * high) % 2 == Bit(b) && (Bit(b) + 2 * high) / 2 == high && (Bit(b) == 1 <==> b)
  {
  }

  lemma Unshifted(f: nat)
    ensures Above(f, 1) == f && (f < 256 ==> Above(f, 256) == 0)
  {
  }

  lemma AboveHalf(f: nat, w: nat)
    requires w in WEIGHTS
    ensures Above(f, 2 * w) == Above(f, w) / 2
  {
    Halvings(f);
  }

  lemma LowAndHigh(q: nat)
    ensures q == Bit(q % 2 == 1) + 2 * (q / 2)
  {
  }

  lemma FlagIsLow(f: nat, w: nat)
    requires w > 0
    ensures Flag(f, w) <==> Above(f, w) % 2 == 1
  {
  }

  /** Splitting off one bit. */
  lemma FlagStep(f: nat, w: nat, low: bool, high: nat)
    requires w in WEIGHTS && Above(f, w) == Bit(low) + 2 * high
    ensures Flag(f, w) == low && Above(f, 2 * w) == high
  {
    hide Bit;
    LowBit(low, high);
    AboveHalf(f, w);
  }

  /** The bits a byte was made of. */
  lemma FlagsOfBits(b0: bool, b1: bool, b2: bool, b3: bool, b4: bool, b5: bool, b6: bool, b7: bool)
    ensures var f := OfBits(b0, b1, b2, b3, b4, b5, b6, b7);
            && Flag(f, 1) == b0 && Flag(f, 2) == b1 && Flag(f, 4) == b2 && Flag(f, 8) == b3
            && Flag(f, 16) == b4 && Flag(f, 32) == b5 && Flag(f, 64) == b6 && Flag(f, 128) == b7
  {
    hide Bit, OfBits, Flag, Above;
    var f7 := Bit(b7);
    var f6 := Bit(b6) + 2 * f7;
    var f5 := Bit(b5) + 2 * f6;
    var f4 := Bit(b4) + 2 * f5;
    var f3 := Bit(b3) + 2 * f4;
    var f2 := Bit(b2) + 2 * f3;
    var f1 := Bit(b1) + 2 * f2;
    var f := OfBits(b0, b1, b2, b3, b4, b5, b6, b7);
    Nested(b0, b1, b2, b3, b4, b5, b6, b7);
    Unshifted(f);
    FlagStep(f, 1, b0, f1);
    FlagStep(f, 2, b1, f2);
    FlagStep(f, 4, b2, f3);
    FlagStep(f, 8, b3, f4);
    FlagStep(f, 16, b4, f5);
    FlagStep(f, 32, b5, f6);
    FlagStep(f, 64, b6, f7);
    FlagStep(f, 128, b7, 0);
  }

  lemma Nested(b0: bool, b1: bool, b2: bool, b3: bool, b4: bool, b5: bool, b6: bool, b7: bool)
    ensures OfBits(b0, b1, b2, b3, b4, b5, b6, b7)
            == Bit(b0) + 2 * (Bit(b1) + 2 * (Bit(b2) + 2 * (Bit(b3)
               + 2 * (Bit(b4) + 2 * (Bit(b5) + 2 * (Bit(b6) + 2 * Bit(b7)))))))
  {
    hide Bit;
  }

  lemma HalfStep(f: nat, w: nat)
    requires w in WEIGHTS
    ensures Above(f, w) == Bit(Flag(f, w)) + 2 * Above(f, 2 * w)
  {
    hide Above, Flag, Bit;
    AboveHalf(f, w);
    FlagIsLow(f, w);
    LowAndHigh(Above(f, w));
  }

  /** A byte is made of its bits. */
  lemma BitsOfByte(f: nat)
    requires f < 256
    ensures OfBits(Flag(f, 1), Flag(f, 2), Flag(f, 4), Flag(f, 8), Flag(f, 16), Flag(f, 32), Flag(f, 64), Flag(f, 128))
              == f
  {
    hide Bit, Flag, Above;
    Unshifted(f);
    HalfStep(f, 1);
    HalfStep(f, 2);
    HalfStep(f, 4);
    HalfStep(f, 8);
    HalfStep(f, 16);
    HalfStep(f, 32);
    HalfStep(f, 64);
    HalfStep(f, 128);
  }
}
