/**
 The CRC-16 of messages to the security core: the two-table form against the bit-serial definition
 with the polynomial x^16 + x^12 + x^5 + 1 of ITU-T V.41, section 2.
 */
module Crc16 {
  type Byte = bv8

  function Xor(a: bv16, b: bv16): bv16 { a ^ b }

  function Double(c: bv16): bv16 { c << 1 }

  /** One bit, the most significant first, into the division register. */
  function Feed(c: bv16, one: bool): bv16 {
    Xor(Double(c), if (c & 0x8000 != 0) != one then 0x1021 else 0)
  }

  function FeedByte(c: bv16, b: Byte): bv16 {
    var c1 := Feed(c, b & 0x80 != 0);
    var c2 := Feed(c1, b & 0x40 != 0);
    var c3 := Feed(c2, b & 0x20 != 0);
    var c4 := Feed(c3, b & 0x10 != 0);
    var c5 := Feed(c4, b & 0x08 != 0);
    var c6 := Feed(c5, b & 0x04 != 0);
    var c7 := Feed(c6, b & 0x02 != 0);
    Feed(c7, b & 0x01 != 0)
  }

  /** The register after a message. */
  function Serial(c: bv16, message: seq<Byte>): bv16 {
    if message == [] then c else FeedByte(Serial(c, message[..|message| - 1]), message[|message| - 1])
  }

  /** What shifting out the top bit feeds back. */
  function TopBit(c: bv16): bv16 { c & 0x8000 }

  function Carry(c: bv16): bv16 {
    if c & 0x8000 != 0 then 0x1021 else 0
  }

  function Shift(c: bv16): bv16 {
    Xor(Double(c), Carry(c))
  }

  function Eight(c: bv16): bv16 {
    Shift(Shift(Shift(Shift(Shift(Shift(Shift(Shift(c))))))))
  }

  function Join(hi: Byte, lo: Byte): bv16 {
    ((hi as bv16) << 8) | (lo as bv16)
  }

  function Top(b: Byte): bv16 {
    (b as bv16) << 8
  }

  const LO_0: seq<Byte> := [0x00, 0x10, 0x20, 0x30, 0x40, 0x50, 0x60, 0x70, 0x81, 0x91, 0xA1, 0xB1, 0xC1, 0xD1, 0xE1, 0xF1]
  const LO_1: seq<Byte> := [0x12, 0x02, 0x32, 0x22, 0x52, 0x42, 0x72, 0x62, 0x93, 0x83, 0xB3, 0xA3, 0xD3, 0xC3, 0xF3, 0xE3]
  const LO_2: seq<Byte> := [0x24, 0x34, 0x04, 0x14, 0x64, 0x74, 0x44, 0x54, 0xA5, 0xB5, 0x85, 0x95, 0xE5, 0xF5, 0xC5, 0xD5]
  const LO_3: seq<Byte> := [0x36, 0x26, 0x16, 0x06, 0x76, 0x66, 0x56, 0x46, 0xB7, 0xA7, 0x97, 0x87, 0xF7, 0xE7, 0xD7, 0xC7]
  const LO_4: seq<Byte> := [0x48, 0x58, 0x68, 0x78, 0x08, 0x18, 0x28, 0x38, 0xC9, 0xD9, 0xE9, 0xF9, 0x89, 0x99, 0xA9, 0xB9]
  const LO_5: seq<Byte> := [0x5A, 0x4A, 0x7A, 0x6A, 0x1A, 0x0A, 0x3A, 0x2A, 0xDB, 0xCB, 0xFB, 0xEB, 0x9B, 0x8B, 0xBB, 0xAB]
  const LO_6: seq<Byte> := [0x6C, 0x7C, 0x4C, 0x5C, 0x2C, 0x3C, 0x0C, 0x1C, 0xED, 0xFD, 0xCD, 0xDD, 0xAD, 0xBD, 0x8D, 0x9D]
  const LO_7: seq<Byte> := [0x7E, 0x6E, 0x5E, 0x4E, 0x3E, 0x2E, 0x1E, 0x0E, 0xFF, 0xEF, 0xDF, 0xCF, 0xBF, 0xAF, 0x9F, 0x8F]
  const LO_8: seq<Byte> := [0x91, 0x81, 0xB1, 0xA1, 0xD1, 0xC1, 0xF1, 0xE1, 0x10, 0x00, 0x30, 0x20, 0x50, 0x40, 0x70, 0x60]
  const LO_9: seq<Byte> := [0x83, 0x93, 0xA3, 0xB3, 0xC3, 0xD3, 0xE3, 0xF3, 0x02, 0x12, 0x22, 0x32, 0x42, 0x52, 0x62, 0x72]
  const LO_A: seq<Byte> := [0xB5, 0xA5, 0x95, 0x85, 0xF5, 0xE5, 0xD5, 0xC5, 0x34, 0x24, 0x14, 0x04, 0x74, 0x64, 0x54, 0x44]
  const LO_B: seq<Byte> := [0xA7, 0xB7, 0x87, 0x97, 0xE7, 0xF7, 0xC7, 0xD7, 0x26, 0x36, 0x06, 0x16, 0x66, 0x76, 0x46, 0x56]
  const LO_C: seq<Byte> := [0xD9, 0xC9, 0xF9, 0xE9, 0x99, 0x89, 0xB9, 0xA9, 0x58, 0x48, 0x78, 0x68, 0x18, 0x08, 0x38, 0x28]
  const LO_D: seq<Byte> := [0xCB, 0xDB, 0xEB, 0xFB, 0x8B, 0x9B, 0xAB, 0xBB, 0x4A, 0x5A, 0x6A, 0x7A, 0x0A, 0x1A, 0x2A, 0x3A]
  const LO_E: seq<Byte> := [0xFD, 0xED, 0xDD, 0xCD, 0xBD, 0xAD, 0x9D, 0x8D, 0x7C, 0x6C, 0x5C, 0x4C, 0x3C, 0x2C, 0x1C, 0x0C]
  const LO_F: seq<Byte> := [0xEF, 0xFF, 0xCF, 0xDF, 0xAF, 0xBF, 0x8F, 0x9F, 0x6E, 0x7E, 0x4E, 0x5E, 0x2E, 0x3E, 0x0E, 0x1E]

  const HI_0: seq<Byte> := [0x00, 0x21, 0x42, 0x63, 0x84, 0xA5, 0xC6, 0xE7, 0x08, 0x29, 0x4A, 0x6B, 0x8C, 0xAD, 0xCE, 0xEF]
  const HI_1: seq<Byte> := [0x31, 0x10, 0x73, 0x52, 0xB5, 0x94, 0xF7, 0xD6, 0x39, 0x18, 0x7B, 0x5A, 0xBD, 0x9C, 0xFF, 0xDE]
  const HI_2: seq<Byte> := [0x62, 0x43, 0x20, 0x01, 0xE6, 0xC7, 0xA4, 0x85, 0x6A, 0x4B, 0x28, 0x09, 0xEE, 0xCF, 0xAC, 0x8D]
  const HI_3: seq<Byte> := [0x53, 0x72, 0x11, 0x30, 0xD7, 0xF6, 0x95, 0xB4, 0x5B, 0x7A, 0x19, 0x38, 0xDF, 0xFE, 0x9D, 0xBC]
  const HI_4: seq<Byte> := [0xC4, 0xE5, 0x86, 0xA7, 0x40, 0x61, 0x02, 0x23, 0xCC, 0xED, 0x8E, 0xAF, 0x48, 0x69, 0x0A, 0x2B]
  const HI_5: seq<Byte> := [0xF5, 0xD4, 0xB7, 0x96, 0x71, 0x50, 0x33, 0x12, 0xFD, 0xDC, 0xBF, 0x9E, 0x79, 0x58, 0x3B, 0x1A]
  const HI_6: seq<Byte> := [0xA6, 0x87, 0xE4, 0xC5, 0x22, 0x03, 0x60, 0x41, 0xAE, 0x8F, 0xEC, 0xCD, 0x2A, 0x0B, 0x68, 0x49]
  const HI_7: seq<Byte> := [0x97, 0xB6, 0xD5, 0xF4, 0x13, 0x32, 0x51, 0x70, 0x9F, 0xBE, 0xDD, 0xFC, 0x1B, 0x3A, 0x59, 0x78]
  const HI_8: seq<Byte> := [0x88, 0xA9, 0xCA, 0xEB, 0x0C, 0x2D, 0x4E, 0x6F, 0x80, 0xA1, 0xC2, 0xE3, 0x04, 0x25, 0x46, 0x67]
  const HI_9: seq<Byte> := [0xB9, 0x98, 0xFB, 0xDA, 0x3D, 0x1C, 0x7F, 0x5E, 0xB1, 0x90, 0xF3, 0xD2, 0x35, 0x14, 0x77, 0x56]
  const HI_A: seq<Byte> := [0xEA, 0xCB, 0xA8, 0x89, 0x6E, 0x4F, 0x2C, 0x0D, 0xE2, 0xC3, 0xA0, 0x81, 0x66, 0x47, 0x24, 0x05]
  const HI_B: seq<Byte> := [0xDB, 0xFA, 0x99, 0xB8, 0x5F, 0x7E, 0x1D, 0x3C, 0xD3, 0xF2, 0x91, 0xB0, 0x57, 0x76, 0x15, 0x34]
  const HI_C: seq<Byte> := [0x4C, 0x6D, 0x0E, 0x2F, 0xC8, 0xE9, 0x8A, 0xAB, 0x44, 0x65, 0x06, 0x27, 0xC0, 0xE1, 0x82, 0xA3]
  const HI_D: seq<Byte> := [0x7D, 0x5C, 0x3F, 0x1E, 0xF9, 0xD8, 0xBB, 0x9A, 0x75, 0x54, 0x37, 0x16, 0xF1, 0xD0, 0xB3, 0x92]
  const HI_E: seq<Byte> := [0x2E, 0x0F, 0x6C, 0x4D, 0xAA, 0x8B, 0xE8, 0xC9, 0x26, 0x07, 0x64, 0x45, 0xA2, 0x83, 0xE0, 0xC1]
  const HI_F: seq<Byte> := [0x1F, 0x3E, 0x5D, 0x7C, 0x9B, 0xBA, 0xD9, 0xF8, 0x17, 0x36, 0x55, 0x74, 0x93, 0xB2, 0xD1, 0xF0]

  /** g_crc_table_lo, sixteen entries a row */
  function RowLo(r: nat): (row: seq<Byte>)
    requires r < 16
    ensures |row| == 16
  {
    match r
    case 0 => LO_0
    case 1 => LO_1
    case 2 => LO_2
    case 3 => LO_3
    case 4 => LO_4
    case 5 => LO_5
    case 6 => LO_6
    case 7 => LO_7
    case 8 => LO_8
    case 9 => LO_9
    case 10 => LO_A
    case 11 => LO_B
    case 12 => LO_C
    case 13 => LO_D
    case 14 => LO_E
    case _ => LO_F
  }

  /** g_crc_table_hi, sixteen entries a row */
  function RowHi(r: nat): (row: seq<Byte>)
    requires r < 16
    ensures |row| == 16
  {
    match r
    case 0 => HI_0
    case 1 => HI_1
    case 2 => HI_2
    case 3 => HI_3
    case 4 => HI_4
    case 5 => HI_5
    case 6 => HI_6
    case 7 => HI_7
    case 8 => HI_8
    case 9 => HI_9
    case 10 => HI_A
    case 11 => HI_B
    case 12 => HI_C
    case 13 => HI_D
    case 14 => HI_E
    case _ => HI_F
  }

  function Mix(a: Byte, b: Byte): Byte { a ^ b }

  function TableLo(index: Byte): Byte {
    LowNibble(index);
    RowLo((index >> 4) as nat)[(index & 0x0F) as nat]
  }

  function TableHi(index: Byte): Byte {
    LowNibble(index);
    RowHi((index >> 4) as nat)[(index & 0x0F) as nat]
  }

  lemma LowNibble(index: Byte)
    ensures (index & 0x0F) as nat < 16 && (index >> 4) as nat < 16
  {
  }

  /** A row of the two tables holds the registers that a first byte alone leaves. */
  ghost predicate RowMatches(lo: seq<Byte>, hi: seq<Byte>, first: bv16)
    requires |lo| == |hi| == 16
  {
    hide Join, Eight, Xor;
    && Join(lo[0], hi[0]) == Eight(Xor(first, 0x0000))
    && Join(lo[1], hi[1]) == Eight(Xor(first, 0x0100))
    && Join(lo[2], hi[2]) == Eight(Xor(first, 0x0200))
    && Join(lo[3], hi[3]) == Eight(Xor(first, 0x0300))
    && Join(lo[4], hi[4]) == Eight(Xor(first, 0x0400))
    && Join(lo[5], hi[5]) == Eight(Xor(first, 0x0500))
    && Join(lo[6], hi[6]) == Eight(Xor(first, 0x0600))
    && Join(lo[7], hi[7]) == Eight(Xor(first, 0x0700))
    && Join(lo[8], hi[8]) == Eight(Xor(first, 0x0800))
    && Join(lo[9], hi[9]) == Eight(Xor(first, 0x0900))
    && Join(lo[10], hi[10]) == Eight(Xor(first, 0x0A00))
    && Join(lo[11], hi[11]) == Eight(Xor(first, 0x0B00))
    && Join(lo[12], hi[12]) == Eight(Xor(first, 0x0C00))
    && Join(lo[13], hi[13]) == Eight(Xor(first, 0x0D00))
    && Join(lo[14], hi[14]) == Eight(Xor(first, 0x0E00))
    && Join(lo[15], hi[15]) == Eight(Xor(first, 0x0F00))
  }

  lemma Row0()
    ensures RowMatches(LO_0, HI_0, 0x0000)
  {
  }

  lemma Row1()
    ensures RowMatches(LO_1, HI_1, 0x1000)
  {
  }

  lemma Row2()
    ensures RowMatches(LO_2, HI_2, 0x2000)
  {
  }

  lemma Row3()
    ensures RowMatches(LO_3, HI_3, 0x3000)
  {
  }

  lemma Row4()
    ensures RowMatches(LO_4, HI_4, 0x4000)
  {
  }

  lemma Row5()
    ensures RowMatches(LO_5, HI_5, 0x5000)
  {
  }

  lemma Row6()
    ensures RowMatches(LO_6, HI_6, 0x6000)
  {
  }

  lemma Row7()
    ensures RowMatches(LO_7, HI_7, 0x7000)
  {
  }

  lemma Row8()
    ensures RowMatches(LO_8, HI_8, 0x8000)
  {
  }

  lemma Row9()
    ensures RowMatches(LO_9, HI_9, 0x9000)
  {
  }

  lemma RowA()
    ensures RowMatches(LO_A, HI_A, 0xA000)
  {
  }

  lemma RowB()
    ensures RowMatches(LO_B, HI_B, 0xB000)
  {
  }

  lemma RowC()
    ensures RowMatches(LO_C, HI_C, 0xC000)
  {
  }

  lemma RowD()
    ensures RowMatches(LO_D, HI_D, 0xD000)
  {
  }

  lemma RowE()
    ensures RowMatches(LO_E, HI_E, 0xE000)
  {
  }

  lemma RowF()
    ensures RowMatches(LO_F, HI_F, 0xF000)
  {
  }

  lemma Column(lo: seq<Byte>, hi: seq<Byte>, first: bv16, j: Byte)
    requires |lo| == |hi| == 16 && RowMatches(lo, hi, first) && j < 16
    ensures j as nat < 16 && Join(lo[j as nat], hi[j as nat]) == Eight(Xor(first, Top(j)))
  {
    hide Join, Eight, Xor;
    match j as nat {
      case 0 => assert Top(j) == 0x0000 by { assert j == 0x00; }
      case 1 => assert Top(j) == 0x0100 by { assert j == 0x01; }
      case 2 => assert Top(j) == 0x0200 by { assert j == 0x02; }
      case 3 => assert Top(j) == 0x0300 by { assert j == 0x03; }
      case 4 => assert Top(j) == 0x0400 by { assert j == 0x04; }
      case 5 => assert Top(j) == 0x0500 by { assert j == 0x05; }
      case 6 => assert Top(j) == 0x0600 by { assert j == 0x06; }
      case 7 => assert Top(j) == 0x0700 by { assert j == 0x07; }
      case 8 => assert Top(j) == 0x0800 by { assert j == 0x08; }
      case 9 => assert Top(j) == 0x0900 by { assert j == 0x09; }
      case 10 => assert Top(j) == 0x0A00 by { assert j == 0x0A; }
      case 11 => assert Top(j) == 0x0B00 by { assert j == 0x0B; }
      case 12 => assert Top(j) == 0x0C00 by { assert j == 0x0C; }
      case 13 => assert Top(j) == 0x0D00 by { assert j == 0x0D; }
      case 14 => assert Top(j) == 0x0E00 by { assert j == 0x0E; }
      case _ => assert Top(j) == 0x0F00 by { assert j == 0x0F; }
    }
  }

  lemma RowsMatch(r: Byte)
    requires r < 16
    ensures r as nat < 16 && RowMatches(RowLo(r as nat), RowHi(r as nat), (r as bv16) << 12)
  {
    hide RowMatches;
    match r as nat {
      case 0 => Row0();
      case 1 => Row1();
      case 2 => Row2();
      case 3 => Row3();
      case 4 => Row4();
      case 5 => Row5();
      case 6 => Row6();
      case 7 => Row7();
      case 8 => Row8();
      case 9 => Row9();
      case 10 => RowA();
      case 11 => RowB();
      case 12 => RowC();
      case 13 => RowD();
      case 14 => RowE();
      case _ => RowF();
    }
  }

  /** An entry of the tables, both halves of it. */
  lemma EntryIsEight(index: Byte)
    ensures Join(TableLo(index), TableHi(index)) == Eight(Top(index))
  {
    hide Join, Eight, RowMatches, RowLo, RowHi, Xor, Top;
    LowNibble(index);
    RowsMatch(index >> 4);
    Column(RowLo((index >> 4) as nat), RowHi((index >> 4) as nat), ((index >> 4) as bv16) << 12, index & 0x0F);
    Nibbles(index);
  }

  lemma Nibbles(index: Byte)
    ensures Xor(((index >> 4) as bv16) << 12, Top(index & 0x0F)) == Top(index)
  {
  }

  lemma DoubleXor(a: bv16, b: bv16)
    ensures Double(Xor(a, b)) == Xor(Double(a), Double(b))
  {
  }

  lemma CarryOf(c: bv16)
    ensures Carry(c) == if TopBit(c) != 0 then 0x1021 else 0
  {
  }

  lemma TopBitIs(a: bv16)
    ensures TopBit(a) == 0 || TopBit(a) == 0x8000
  {
  }

  lemma TopBitXor(a: bv16, b: bv16)
    ensures TopBit(Xor(a, b)) == Xor(TopBit(a), TopBit(b))
  {
  }

  lemma XorConstants()
    ensures Xor(0, 0) == Xor(0x8000, 0x8000) == Xor(0x1021, 0x1021) == 0
    ensures Xor(0x8000, 0) == Xor(0, 0x8000) == 0x8000 && Xor(0x1021, 0) == Xor(0, 0x1021) == 0x1021
  {
  }

  lemma CarryXor(a: bv16, b: bv16)
    ensures Carry(Xor(a, b)) == Xor(Carry(a), Carry(b))
  {
    hide Xor, TopBit, Carry;
    CarryOf(a);
    CarryOf(b);
    CarryOf(Xor(a, b));
    TopBitIs(a);
    TopBitIs(b);
    TopBitXor(a, b);
    XorConstants();
  }

  lemma XorCommutes(a: bv16, b: bv16)
    ensures Xor(a, b) == Xor(b, a)
  {
  }

  lemma XorAssociates(a: bv16, b: bv16, c: bv16)
    ensures Xor(Xor(a, b), c) == Xor(a, Xor(b, c))
  {
  }

  lemma XorThree(a: bv16, b: bv16, c: bv16)
    ensures Xor(Xor(a, b), c) == Xor(Xor(a, c), b)
  {
    hide Xor;
    XorAssociates(a, b, c);
    XorCommutes(b, c);
    XorAssociates(a, c, b);
  }

  lemma XorSwaps(a: bv16, b: bv16, c: bv16, d: bv16)
    ensures Xor(Xor(a, b), Xor(c, d)) == Xor(Xor(a, c), Xor(b, d))
  {
    hide Xor;
    XorAssociates(Xor(a, b), c, d);
    XorThree(a, b, c);
    XorAssociates(Xor(a, c), b, d);
  }

  lemma XorZero(a: bv16, b: bv16)
    ensures Xor(a, 0) == a && (Xor(a, b) == 0 ==> a == b) && Xor(a, a) == 0
  {
  }

  lemma ShiftXor(a: bv16, b: bv16)
    ensures Shift(Xor(a, b)) == Xor(Shift(a), Shift(b))
  {
    hide Xor, Double, Carry;
    DoubleXor(a, b);
    CarryXor(a, b);
    XorSwaps(Double(a), Double(b), Carry(a), Carry(b));
  }

  lemma EightXor(a: bv16, b: bv16)
    ensures Eight(Xor(a, b)) == Xor(Eight(a), Eight(b))
  {
    hide Shift, Xor;
    var a1, b1 := Shift(a), Shift(b);
    var a2, b2 := Shift(a1), Shift(b1);
    var a3, b3 := Shift(a2), Shift(b2);
    var a4, b4 := Shift(a3), Shift(b3);
    var a5, b5 := Shift(a4), Shift(b4);
    var a6, b6 := Shift(a5), Shift(b5);
    var a7, b7 := Shift(a6), Shift(b6);
    ShiftXor(a, b); ShiftXor(a1, b1); ShiftXor(a2, b2); ShiftXor(a3, b3);
    ShiftXor(a4, b4); ShiftXor(a5, b5); ShiftXor(a6, b6); ShiftXor(a7, b7);
  }

  lemma ShiftOfSmall(c: bv16)
    ensures c & 0x8000 == 0 ==> Shift(c) == Double(c)
  {
  }

  /** The lower byte moves up without feedback. */
  lemma EightOfLow(b: Byte)
    ensures Eight(b as bv16) == Top(b)
  {
    hide Shift, Double;
    var c := b as bv16;
    Doubled(b);
    ShiftOfSmall(c); ShiftOfSmall(c << 1); ShiftOfSmall(c << 2); ShiftOfSmall(c << 3);
    ShiftOfSmall(c << 4); ShiftOfSmall(c << 5); ShiftOfSmall(c << 6); ShiftOfSmall(c << 7);
  }

  lemma Doubled(b: Byte)
    ensures var c := b as bv16;
      && c & 0x8000 == 0 && (c << 1) & 0x8000 == 0 && (c << 2) & 0x8000 == 0 && (c << 3) & 0x8000 == 0
      && (c << 4) & 0x8000 == 0 && (c << 5) & 0x8000 == 0 && (c << 6) & 0x8000 == 0 && (c << 7) & 0x8000 == 0
      && Double(c) == c << 1 && Double(c << 1) == c << 2 && Double(c << 2) == c << 3 && Double(c << 3) == c << 4
      && Double(c << 4) == c << 5 && Double(c << 5) == c << 6 && Double(c << 6) == c << 7 && Double(c << 7) == Top(b)
  {
  }

  lemma CarryOfTop(c: bv16, b: Byte)
    ensures Carry(Xor(c, Top(b))) == if (c & 0x8000 != 0) != (b & 0x80 != 0) then 0x1021 else 0
    ensures Double(Top(b)) == Top(b << 1)
  {
  }

  lemma FeedIsShift(c: bv16, b: Byte)
    ensures Xor(Feed(c, b & 0x80 != 0), Top(b << 1)) == Shift(Xor(c, Top(b)))
  {
    hide Xor, Double, Carry, Top;
    CarryOfTop(c, b);
    DoubleXor(c, Top(b));
    XorThree(Double(c), Carry(Xor(c, Top(b))), Top(b << 1));
  }

  /** Feeding a byte bit by bit is adding it on top and shifting eight times. */
  lemma FeedByteIsEight(c: bv16, b: Byte)
    ensures FeedByte(c, b) == Eight(Xor(c, Top(b)))
  {
    hide Feed, Shift, Top, Xor;
    Bits(b);
    var c1 := Feed(c, b & 0x80 != 0);
    var c2 := Feed(c1, b & 0x40 != 0);
    var c3 := Feed(c2, b & 0x20 != 0);
    var c4 := Feed(c3, b & 0x10 != 0);
    var c5 := Feed(c4, b & 0x08 != 0);
    var c6 := Feed(c5, b & 0x04 != 0);
    var c7 := Feed(c6, b & 0x02 != 0);
    FeedIsShift(c, b); FeedIsShift(c1, b << 1); FeedIsShift(c2, b << 2); FeedIsShift(c3, b << 3);
    FeedIsShift(c4, b << 4); FeedIsShift(c5, b << 5); FeedIsShift(c6, b << 6); FeedIsShift(c7, b << 7);
    NoTop(Feed(c7, b & 0x01 != 0));
  }

  lemma NoTop(c: bv16)
    ensures Xor(c, Top(0)) == c
  {
  }

  lemma Bits(b: Byte)
    ensures (b << 1) << 1 == b << 2 && (b << 2) << 1 == b << 3 && (b << 3) << 1 == b << 4 && (b << 4) << 1 == b << 5
    ensures (b << 5) << 1 == b << 6 && (b << 6) << 1 == b << 7 && (b << 7) << 1 == 0
    ensures b & 0x40 != 0 <==> (b << 1) & 0x80 != 0
    ensures b & 0x20 != 0 <==> (b << 2) & 0x80 != 0
    ensures b & 0x10 != 0 <==> (b << 3) & 0x80 != 0
    ensures b & 0x08 != 0 <==> (b << 4) & 0x80 != 0
    ensures b & 0x04 != 0 <==> (b << 5) & 0x80 != 0
    ensures b & 0x02 != 0 <==> (b << 6) & 0x80 != 0
    ensures b & 0x01 != 0 <==> (b << 7) & 0x80 != 0
  {
  }

  lemma Joins(hi: Byte, lo: Byte, b: Byte)
    ensures Xor(Join(hi, lo), Top(b)) == Xor(Top(hi ^ b), lo as bv16)
    ensures Join(lo ^ hi, b) == Xor(Join(hi, b), Top(lo))
    ensures Join(hi, lo) == Xor(Top(hi), lo as bv16)
  {
  }

  /** A step with the tables is a byte fed bit by bit. */
  lemma TableStep(hi: Byte, lo: Byte, b: Byte)
    ensures Join(Mix(lo, TableLo(Mix(hi, b))), TableHi(Mix(hi, b))) == FeedByte(Join(hi, lo), b)
  {
    hide TableLo, TableHi, Eight, FeedByte, Xor, Join, Top;
    var index := hi ^ b;
    EntryIsEight(index);
    EightOfLow(lo);
    EightXor(Top(index), lo as bv16);
    FeedByteIsEight(Join(hi, lo), b);
    Joins(hi, lo, b);
    Joins(TableLo(index), lo, TableHi(index));
  }

  function Pack(hi: Byte, lo: Byte): bv32 {
    (lo as bv32) | ((hi as bv32) << 8)
  }

  function Wide(c: bv16): bv32 { c as bv32 }

  /** dal_cal_crc; a null pointer or an empty message leaves everything as it was. */
  method DalCalCrc(data: array?<Byte>, length: nat, crc: array?<bv32>)
    requires length < 0x1_0000_0000 && (data != null ==> length <= data.Length) && (crc != null ==> crc.Length == 1)
    modifies crc
    ensures crc != null && (data == null || length == 0) ==> crc[0] == old(crc[0])
    ensures crc != null && data != null && length != 0 ==> crc[0] == Wide(Serial(0xFFFF, old(data[..length])))
  {
    hide FeedByte, TableLo, TableHi, Join, Serial, Mix, Pack, Wide;
    var hi: Byte, lo: Byte := 0xFF, 0xFF;
    if data == null || crc == null || length == 0 {
      return;
    }
    var i := 0;
    ghost var message := data[..length];
    Start(message);
    while i < length
      invariant i <= length && data[..length] == message && Join(hi, lo) == Serial(0xFFFF, message[..i])
    {
      var index := Mix(hi, data[i]);
      TableStep(hi, lo, data[i]);
      SerialGrows(0xFFFF, message, i);
      assert data[i] == message[i];
      hi, lo := Mix(lo, TableLo(index)), TableHi(index);
      i := i + 1;
    }
    assert message[..length] == message;
    JoinWide(hi, lo);
    crc[0] := Pack(hi, lo);
  }

  lemma Start(message: seq<Byte>)
    ensures Join(0xFF, 0xFF) == Serial(0xFFFF, message[..0])
  {
  }

  lemma SerialGrows(c: bv16, message: seq<Byte>, i: nat)
    requires i < |message|
    ensures Serial(c, message[..i + 1]) == FeedByte(Serial(c, message[..i]), message[i])
  {
    hide FeedByte;
    assert message[..i + 1][..i] == message[..i];
  }

  lemma JoinWide(hi: Byte, lo: Byte)
    ensures Pack(hi, lo) == Wide(Join(hi, lo))
  {
  }

  lemma ShiftOfSome(c: bv16)
    requires c != 0
    ensures Shift(c) != 0
  {
  }

  lemma EightOfSome(c: bv16)
    requires c != 0
    ensures Eight(c) != 0
  {
    hide Shift;
    var c1 := Shift(c);
    var c2 := Shift(c1);
    var c3 := Shift(c2);
    var c4 := Shift(c3);
    var c5 := Shift(c4);
    var c6 := Shift(c5);
    var c7 := Shift(c6);
    ShiftOfSome(c); ShiftOfSome(c1); ShiftOfSome(c2); ShiftOfSome(c3);
    ShiftOfSome(c4); ShiftOfSome(c5); ShiftOfSome(c6); ShiftOfSome(c7);
  }

  /** Eight shifts are a bijection of the registers. */
  lemma EightInjective(a: bv16, b: bv16)
    requires a != b
    ensures Eight(a) != Eight(b)
  {
    hide Eight, Xor;
    XorZero(a, b);
    EightXor(a, b);
    EightOfSome(Xor(a, b));
    XorZero(Eight(a), Eight(b));
  }

  lemma XorInjective(c: bv16, a: bv16, b: bv16)
    requires a != b
    ensures Xor(c, a) != Xor(c, b) && Xor(a, c) != Xor(b, c)
  {
  }

  lemma JoinInjective(b1: Byte, b2: Byte, d1: Byte, d2: Byte)
    requires (b1, b2) != (d1, d2)
    ensures Join(b1, b2) != Join(d1, d2)
  {
  }

  lemma TopInjective(b: Byte, d: Byte)
    requires b != d
    ensures Top(b) != Top(d)
  {
  }

  /** Different registers stay different under the same message. */
  lemma {:induction false} SerialInjective(c: bv16, d: bv16, message: seq<Byte>)
    requires c != d
    ensures Serial(c, message) != Serial(d, message)
  {
    hide FeedByte;
    if message != [] {
      var front, b := message[..|message| - 1], message[|message| - 1];
      SerialInjective(c, d, front);
      FeedInjective(Serial(c, front), Serial(d, front), b);
    }
  }

  lemma FeedInjective(c: bv16, d: bv16, b: Byte)
    requires c != d
    ensures FeedByte(c, b) != FeedByte(d, b)
  {
    hide FeedByte, Eight, Xor, Top;
    FeedByteIsEight(c, b);
    FeedByteIsEight(d, b);
    XorInjective(Top(b), c, d);
    EightInjective(Xor(c, Top(b)), Xor(d, Top(b)));
  }

  /** Two bytes are sixteen shifts of the register with both added. */
  lemma TwoBytes(c: bv16, b1: Byte, b2: Byte)
    ensures FeedByte(FeedByte(c, b1), b2) == Eight(Eight(Xor(c, Join(b1, b2))))
  {
    hide FeedByte, Eight, Xor, Top, Join;
    FeedByteIsEight(c, b1);
    FeedByteIsEight(FeedByte(c, b1), b2);
    EightOfLow(b2);
    EightXor(Xor(c, Top(b1)), b2 as bv16);
    XorAssociates(c, Top(b1), b2 as bv16);
    Joins(b1, b2, 0);
  }

  lemma {:induction false} SerialAppends(c: bv16, first: seq<Byte>, second: seq<Byte>)
    ensures Serial(c, first + second) == Serial(Serial(c, first), second)
  {
    hide FeedByte;
    if second == [] {
      assert first + second == first;
    } else {
      var front := second[..|second| - 1];
      SerialAppends(c, first, front);
      assert (first + second)[..|first + second| - 1] == first + front;
    }
  }

  /** Messages that differ in two adjacent bytes have different CRCs, whatever surrounds the two bytes. */
  lemma AdjacentBytesDetected(before: seq<Byte>, b1: Byte, b2: Byte, d1: Byte, d2: Byte, after: seq<Byte>)
    requires (b1, b2) != (d1, d2)
    ensures Serial(0xFFFF, before + [b1, b2] + after) != Serial(0xFFFF, before + [d1, d2] + after)
  {
    hide FeedByte, Eight, Xor, Join, Serial;
    var c := Serial(0xFFFF, before);
    SerialAppends(0xFFFF, before + [b1, b2], after);
    SerialAppends(0xFFFF, before + [d1, d2], after);
    SerialAppends(0xFFFF, before, [b1, b2]);
    SerialAppends(0xFFFF, before, [d1, d2]);
    TwoFed(c, b1, b2);
    TwoFed(c, d1, d2);
    TwoBytes(c, b1, b2);
    TwoBytes(c, d1, d2);
    JoinInjective(b1, b2, d1, d2);
    XorInjective(c, Join(b1, b2), Join(d1, d2));
    EightInjective(Xor(c, Join(b1, b2)), Xor(c, Join(d1, d2)));
    EightInjective(Eight(Xor(c, Join(b1, b2))), Eight(Xor(c, Join(d1, d2))));
    SerialInjective(Serial(c, [b1, b2]), Serial(c, [d1, d2]), after);
  }

  lemma OneFed(c: bv16, b: Byte)
    ensures Serial(c, [b]) == FeedByte(c, b)
  {
    hide FeedByte;
    assert [b][..0] == [] && Serial(c, []) == c;
  }

  lemma TwoFed(c: bv16, b1: Byte, b2: Byte)
    ensures Serial(c, [b1, b2]) == FeedByte(FeedByte(c, b1), b2)
  {
    hide FeedByte;
    OneFed(c, b1);
    assert [b1, b2][..1] == [b1];
  }

  /** Messages of one length that agree but in two adjacent bytes have different CRCs. */
  lemma BurstDetected(m: seq<Byte>, n: seq<Byte>, at: nat)
    requires |m| == |n| && m != n
    requires forall i :: 0 <= i < |m| && i != at && i != at + 1 ==> m[i] == n[i]
    ensures Serial(0xFFFF, m) != Serial(0xFFFF, n)
  {
    hide Serial;
    if |m| < 2 {
      OneByte(m, n);
    } else {
      var k := if at + 1 < |m| then at else |m| - 2;
      var before, after := m[..k], m[k + 2..];
      assert m == before + [m[k], m[k + 1]] + after;
      assert n == before + [n[k], n[k + 1]] + after;
      AdjacentBytesDetected(before, m[k], m[k + 1], n[k], n[k + 1], after);
    }
  }

  lemma OneByte(m: seq<Byte>, n: seq<Byte>)
    requires |m| == |n| < 2 && m != n
    ensures Serial(0xFFFF, m) != Serial(0xFFFF, n)
  {
    hide FeedByte, Eight, Serial, Xor, Top;
    assert m == [m[0]] && n == [n[0]];
    OneFed(0xFFFF, m[0]);
    OneFed(0xFFFF, n[0]);
    FeedByteIsEight(0xFFFF, m[0]);
    FeedByteIsEight(0xFFFF, n[0]);
    TopInjective(m[0], n[0]);
    XorInjective(0xFFFF, Top(m[0]), Top(n[0]));
    EightInjective(Xor(0xFFFF, Top(m[0])), Xor(0xFFFF, Top(n[0])));
  }
}
