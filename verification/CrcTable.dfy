/** crc32_tab, the literal table of src/core/crc.c:32-61, against its definition. */
module CrcTable {
  import opened Bits
  import opened Words
  import opened Crc

  // crc32_tab, sixteen entries a row
  const ROW0: seq<bv32> := [
    0x00000000, 0x77073096, 0xee0e612c, 0x990951ba, 0x076dc419, 0x706af48f, 0xe963a535, 0x9e6495a3,
    0x0edb8832, 0x79dcb8a4, 0xe0d5e91e, 0x97d2d988, 0x09b64c2b, 0x7eb17cbd, 0xe7b82d07, 0x90bf1d91]
  const ROW1: seq<bv32> := [
    0x1db71064, 0x6ab020f2, 0xf3b97148, 0x84be41de, 0x1adad47d, 0x6ddde4eb, 0xf4d4b551, 0x83d385c7,
    0x136c9856, 0x646ba8c0, 0xfd62f97a, 0x8a65c9ec, 0x14015c4f, 0x63066cd9, 0xfa0f3d63, 0x8d080df5]
  const ROW2: seq<bv32> := [
    0x3b6e20c8, 0x4c69105e, 0xd56041e4, 0xa2677172, 0x3c03e4d1, 0x4b04d447, 0xd20d85fd, 0xa50ab56b,
    0x35b5a8fa, 0x42b2986c, 0xdbbbc9d6, 0xacbcf940, 0x32d86ce3, 0x45df5c75, 0xdcd60dcf, 0xabd13d59]
  const ROW3: seq<bv32> := [
    0x26d930ac, 0x51de003a, 0xc8d75180, 0xbfd06116, 0x21b4f4b5, 0x56b3c423, 0xcfba9599, 0xb8bda50f,
    0x2802b89e, 0x5f058808, 0xc60cd9b2, 0xb10be924, 0x2f6f7c87, 0x58684c11, 0xc1611dab, 0xb6662d3d]
  const ROW4: seq<bv32> := [
    0x76dc4190, 0x01db7106, 0x98d220bc, 0xefd5102a, 0x71b18589, 0x06b6b51f, 0x9fbfe4a5, 0xe8b8d433,
    0x7807c9a2, 0x0f00f934, 0x9609a88e, 0xe10e9818, 0x7f6a0dbb, 0x086d3d2d, 0x91646c97, 0xe6635c01]
  const ROW5: seq<bv32> := [
    0x6b6b51f4, 0x1c6c6162, 0x856530d8, 0xf262004e, 0x6c0695ed, 0x1b01a57b, 0x8208f4c1, 0xf50fc457,
    0x65b0d9c6, 0x12b7e950, 0x8bbeb8ea, 0xfcb9887c, 0x62dd1ddf, 0x15da2d49, 0x8cd37cf3, 0xfbd44c65]
  const ROW6: seq<bv32> := [
    0x4db26158, 0x3ab551ce, 0xa3bc0074, 0xd4bb30e2, 0x4adfa541, 0x3dd895d7, 0xa4d1c46d, 0xd3d6f4fb,
    0x4369e96a, 0x346ed9fc, 0xad678846, 0xda60b8d0, 0x44042d73, 0x33031de5, 0xaa0a4c5f, 0xdd0d7cc9]
  const ROW7: seq<bv32> := [
    0x5005713c, 0x270241aa, 0xbe0b1010, 0xc90c2086, 0x5768b525, 0x206f85b3, 0xb966d409, 0xce61e49f,
    0x5edef90e, 0x29d9c998, 0xb0d09822, 0xc7d7a8b4, 0x59b33d17, 0x2eb40d81, 0xb7bd5c3b, 0xc0ba6cad]
  const ROW8: seq<bv32> := [
    0xedb88320, 0x9abfb3b6, 0x03b6e20c, 0x74b1d29a, 0xead54739, 0x9dd277af, 0x04db2615, 0x73dc1683,
    0xe3630b12, 0x94643b84, 0x0d6d6a3e, 0x7a6a5aa8, 0xe40ecf0b, 0x9309ff9d, 0x0a00ae27, 0x7d079eb1]
  const ROW9: seq<bv32> := [
    0xf00f9344, 0x8708a3d2, 0x1e01f268, 0x6906c2fe, 0xf762575d, 0x806567cb, 0x196c3671, 0x6e6b06e7,
    0xfed41b76, 0x89d32be0, 0x10da7a5a, 0x67dd4acc, 0xf9b9df6f, 0x8ebeeff9, 0x17b7be43, 0x60b08ed5]
  const ROW10: seq<bv32> := [
    0xd6d6a3e8, 0xa1d1937e, 0x38d8c2c4, 0x4fdff252, 0xd1bb67f1, 0xa6bc5767, 0x3fb506dd, 0x48b2364b,
    0xd80d2bda, 0xaf0a1b4c, 0x36034af6, 0x41047a60, 0xdf60efc3, 0xa867df55, 0x316e8eef, 0x4669be79]
  const ROW11: seq<bv32> := [
    0xcb61b38c, 0xbc66831a, 0x256fd2a0, 0x5268e236, 0xcc0c7795, 0xbb0b4703, 0x220216b9, 0x5505262f,
    0xc5ba3bbe, 0xb2bd0b28, 0x2bb45a92, 0x5cb36a04, 0xc2d7ffa7, 0xb5d0cf31, 0x2cd99e8b, 0x5bdeae1d]
  const ROW12: seq<bv32> := [
    0x9b64c2b0, 0xec63f226, 0x756aa39c, 0x026d930a, 0x9c0906a9, 0xeb0e363f, 0x72076785, 0x05005713,
    0x95bf4a82, 0xe2b87a14, 0x7bb12bae, 0x0cb61b38, 0x92d28e9b, 0xe5d5be0d, 0x7cdcefb7, 0x0bdbdf21]
  const ROW13: seq<bv32> := [
    0x86d3d2d4, 0xf1d4e242, 0x68ddb3f8, 0x1fda836e, 0x81be16cd, 0xf6b9265b, 0x6fb077e1, 0x18b74777,
    0x88085ae6, 0xff0f6a70, 0x66063bca, 0x11010b5c, 0x8f659eff, 0xf862ae69, 0x616bffd3, 0x166ccf45]
  const ROW14: seq<bv32> := [
    0xa00ae278, 0xd70dd2ee, 0x4e048354, 0x3903b3c2, 0xa7672661, 0xd06016f7, 0x4969474d, 0x3e6e77db,
    0xaed16a4a, 0xd9d65adc, 0x40df0b66, 0x37d83bf0, 0xa9bcae53, 0xdebb9ec5, 0x47b2cf7f, 0x30b5ffe9]
  const ROW15: seq<bv32> := [
    0xbdbdf21c, 0xcabac28a, 0x53b39330, 0x24b4a3a6, 0xbad03605, 0xcdd70693, 0x54de5729, 0x23d967bf,
    0xb3667a2e, 0xc4614ab8, 0x5d681b02, 0x2a6f2b94, 0xb40bbe37, 0xc30c8ea1, 0x5a05df1b, 0x2d02ef8d]

  function Row(r: nat): (s: seq<bv32>)
    requires r < 16
    ensures |s| == 16
  {
    match r
    case 0 => ROW0
    case 1 => ROW1
    case 2 => ROW2
    case 3 => ROW3
    case 4 => ROW4
    case 5 => ROW5
    case 6 => ROW6
    case 7 => ROW7
    case 8 => ROW8
    case 9 => ROW9
    case 10 => ROW10
    case 11 => ROW11
    case 12 => ROW12
    case 13 => ROW13
    case 14 => ROW14
    case _ => ROW15
  }

  function Crc32Tab(i: nat): bv32
    requires i < 256
  {
    Row(i / 16)[i % 16]
  }

  // ----- the definition, by doubling the index -----

  /** Doubling an index undoes one step. */
  lemma EntryOfDouble(x: bv32)
    requires !Odd(x)
    ensures TableEntry(x) == Unstep(TableEntry(Half(x)))
  {
    hide Step, Unstep, Odd, Half;
    EvenStep(x);
    StepsLast(Half(x), 7);
    UnstepStep(Steps(Half(x), 7));
  }

  lemma {:induction false} StepsLast(c: bv32, n: nat)
    ensures Steps(c, n + 1) == Step(Steps(c, n))
    decreases n
  {
    hide Step;
    if n > 0 {
      StepsLast(Step(c), n - 1);
    }
  }

  /** Adding the last bit to an index adds the entry of 1. */
  lemma EntryOfOdd(x: bv32)
    requires Odd(x)
    ensures TableEntry(x) == Xor(TableEntry(Xor(x, 1)), TableEntry(1))
  {
    hide Xor, Odd, Step;
    XorSelf(x, 1);
    StepsLinear(Xor(x, 1), 1, 8);
  }

  lemma HalfOfBits(b0: bool, b1: bool, b2: bool, b3: bool, b4: bool, b5: bool, b6: bool, b7: bool)
    ensures Half(BitWord(b0, b1, b2, b3, b4, b5, b6, b7)) == BitWord(b1, b2, b3, b4, b5, b6, b7, false)
    ensures Odd(BitWord(b0, b1, b2, b3, b4, b5, b6, b7)) <==> b0
    ensures b0 ==> Xor(BitWord(b0, b1, b2, b3, b4, b5, b6, b7), 1) == BitWord(false, b1, b2, b3, b4, b5, b6, b7)
  {
  }

  lemma FlagsOfHalf(i: nat)
    requires i < 256
    ensures Flag(i, 2) == Flag(i / 2, 1) && Flag(i, 4) == Flag(i / 2, 2) && Flag(i, 8) == Flag(i / 2, 4)
    ensures Flag(i, 16) == Flag(i / 2, 8) && Flag(i, 32) == Flag(i / 2, 16) && Flag(i, 64) == Flag(i / 2, 32)
    ensures Flag(i, 128) == Flag(i / 2, 64) && !Flag(i / 2, 128) && (Flag(i, 1) <==> i % 2 == 1)
  {
  }

  /** Index i, bit by bit. */
  lemma HalfOfIndex(i: nat)
    requires i < 256
    ensures Half(Word(i)) == Word(i / 2) && (Odd(Word(i)) <==> i % 2 == 1)
    ensures i % 2 == 1 ==> Xor(Word(i), 1) == Word(i - 1)
  {
    hide Flag, BitWord, Half, Odd, Xor;
    FlagsOfHalf(i);
    HalfOfBits(Flag(i, 1), Flag(i, 2), Flag(i, 4), Flag(i, 8), Flag(i, 16), Flag(i, 32), Flag(i, 64), Flag(i, 128));
    if i % 2 == 1 {
      FlagsOfHalf(i - 1);
    }
  }

  // ----- the literal table -----

  /** Two neighbouring entries, from the one at half their index. */
  predicate Doubles(half: bv32, even: bv32, odd: bv32) {
    even == Unstep(half) && odd == Xor(even, 0x77073096)
  }

  /** A row, from half a row. */
  predicate RowDoubles(half: seq<bv32>, at: nat, row: seq<bv32>)
    requires |half| == 16 && at <= 8 && |row| == 16
  {
    && Doubles(half[at], row[0], row[1]) && Doubles(half[at + 1], row[2], row[3])
    && Doubles(half[at + 2], row[4], row[5]) && Doubles(half[at + 3], row[6], row[7])
    && Doubles(half[at + 4], row[8], row[9]) && Doubles(half[at + 5], row[10], row[11])
    && Doubles(half[at + 6], row[12], row[13]) && Doubles(half[at + 7], row[14], row[15])
  }

  lemma Rows0And1()
    ensures RowDoubles(ROW0, 0, ROW0) && RowDoubles(ROW0, 8, ROW1)
  {
  }

  lemma Rows2And3()
    ensures RowDoubles(ROW1, 0, ROW2) && RowDoubles(ROW1, 8, ROW3)
  {
  }

  lemma Rows4And5()
    ensures RowDoubles(ROW2, 0, ROW4) && RowDoubles(ROW2, 8, ROW5)
  {
  }

  lemma Rows6And7()
    ensures RowDoubles(ROW3, 0, ROW6) && RowDoubles(ROW3, 8, ROW7)
  {
  }

  lemma Rows8And9()
    ensures RowDoubles(ROW4, 0, ROW8) && RowDoubles(ROW4, 8, ROW9)
  {
  }

  lemma Rows10And11()
    ensures RowDoubles(ROW5, 0, ROW10) && RowDoubles(ROW5, 8, ROW11)
  {
  }

  lemma Rows12And13()
    ensures RowDoubles(ROW6, 0, ROW12) && RowDoubles(ROW6, 8, ROW13)
  {
  }

  lemma Rows14And15()
    ensures RowDoubles(ROW7, 0, ROW14) && RowDoubles(ROW7, 8, ROW15)
  {
  }

  lemma RowsDouble(r: nat)
    requires r < 16
    ensures RowDoubles(Row(r / 2), r % 2 * 8, Row(r))
  {
    hide RowDoubles;
    match r / 2
    case 0 => Rows0And1();
    case 1 => Rows2And3();
    case 2 => Rows4And5();
    case 3 => Rows6And7();
    case 4 => Rows8And9();
    case 5 => Rows10And11();
    case 6 => Rows12And13();
    case _ => Rows14And15();
  }

  lemma TabDoubles(i: nat)
    requires i < 128
    ensures Doubles(Crc32Tab(i), Crc32Tab(2 * i), Crc32Tab(2 * i + 1))
  {
    hide Row, Doubles;
    var r, m := i / 8, i % 8;
    RowsDouble(r);
    assert r / 2 == i / 16 && r % 2 * 8 + m == i % 16;
    assert 2 * i / 16 == r && 2 * i % 16 == 2 * m && (2 * i + 1) / 16 == r && (2 * i + 1) % 16 == 2 * m + 1;
  }

  lemma FirstEntries()
    ensures TableEntry(0) == 0 && TableEntry(1) == 0x77073096
  {
  }

  lemma FirstIndex()
    ensures Word(0) == 0 && Crc32Tab(0) == 0
  {
  }

  /** Every literal entry is the one defined. */
  lemma {:induction false} LiteralIsDefined(i: nat)
    requires i < 256
    ensures Crc32Tab(i) == TableEntry(Word(i))
    decreases i
  {
    hide Crc32Tab, TableEntry, Word, Xor, Half, Odd, Unstep;
    FirstEntries();
    FirstIndex();
    if i > 0 {
      TabDoubles(i / 2);
      HalfOfIndex(i);
      if i % 2 == 1 {
        LiteralIsDefined(i - 1);
        EntryOfOdd(Word(i));
      } else {
        LiteralIsDefined(i / 2);
        EntryOfDouble(Word(i));
      }
    }
  }

  /** The table of get_crc32. */
  method LiteralTable() returns (tab: array<bv32>)
    ensures IsTable(tab) && fresh(tab)
  {
    hide Crc32Tab, Word, TableEntry;
    tab := new bv32[256](i requires 0 <= i < 256 => Crc32Tab(i));
    forall i | 0 <= i < 256
      ensures tab[i] == TableEntry(Word(i))
    {
      LiteralIsDefined(i);
    }
  }
}
