// The checksum of src/crc16.c: CRC-16 with polynomial x^16 + x^15 + x^2 + 1, least significant bit
// first, driven by a table of 256 words, here in sixteen rows of sixteen.
module Crc16 {

  function Row0(j: bv8): bv16 {
    match j
    case 0 => 0x0000 case 1 => 0xC0C1 case 2 => 0xC181 case 3 => 0x0140
    case 4 => 0xC301 case 5 => 0x03C0 case 6 => 0x0280 case 7 => 0xC241
    case 8 => 0xC601 case 9 => 0x06C0 case 10 => 0x0780 case 11 => 0xC741
    case 12 => 0x0500 case 13 => 0xC5C1 case 14 => 0xC481 case _ => 0x0440
  }

  function Row1(j: bv8): bv16 {
    match j
    case 0 => 0xCC01 case 1 => 0x0CC0 case 2 => 0x0D80 case 3 => 0xCD41
    case 4 => 0x0F00 case 5 => 0xCFC1 case 6 => 0xCE81 case 7 => 0x0E40
    case 8 => 0x0A00 case 9 => 0xCAC1 case 10 => 0xCB81 case 11 => 0x0B40
    case 12 => 0xC901 case 13 => 0x09C0 case 14 => 0x0880 case _ => 0xC841
  }

  function Row2(j: bv8): bv16 {
    match j
    case 0 => 0xD801 case 1 => 0x18C0 case 2 => 0x1980 case 3 => 0xD941
    case 4 => 0x1B00 case 5 => 0xDBC1 case 6 => 0xDA81 case 7 => 0x1A40
    case 8 => 0x1E00 case 9 => 0xDEC1 case 10 => 0xDF81 case 11 => 0x1F40
    case 12 => 0xDD01 case 13 => 0x1DC0 case 14 => 0x1C80 case _ => 0xDC41
  }

  function Row3(j: bv8): bv16 {
    match j
    case 0 => 0x1400 case 1 => 0xD4C1 case 2 => 0xD581 case 3 => 0x1540
    case 4 => 0xD701 case 5 => 0x17C0 case 6 => 0x1680 case 7 => 0xD641
    case 8 => 0xD201 case 9 => 0x12C0 case 10 => 0x1380 case 11 => 0xD341
    case 12 => 0x1100 case 13 => 0xD1C1 case 14 => 0xD081 case _ => 0x1040
  }

  function Row4(j: bv8): bv16 {
    match j
    case 0 => 0xF001 case 1 => 0x30C0 case 2 => 0x3180 case 3 => 0xF141
    case 4 => 0x3300 case 5 => 0xF3C1 case 6 => 0xF281 case 7 => 0x3240
    case 8 => 0x3600 case 9 => 0xF6C1 case 10 => 0xF781 case 11 => 0x3740
    case 12 => 0xF501 case 13 => 0x35C0 case 14 => 0x3480 case _ => 0xF441
  }

  function Row5(j: bv8): bv16 {
    match j
    case 0 => 0x3C00 case 1 => 0xFCC1 case 2 => 0xFD81 case 3 => 0x3D40
    case 4 => 0xFF01 case 5 => 0x3FC0 case 6 => 0x3E80 case 7 => 0xFE41
    case 8 => 0xFA01 case 9 => 0x3AC0 case 10 => 0x3B80 case 11 => 0xFB41
    case 12 => 0x3900 case 13 => 0xF9C1 case 14 => 0xF881 case _ => 0x3840
  }

  function Row6(j: bv8): bv16 {
    match j
    case 0 => 0x2800 case 1 => 0xE8C1 case 2 => 0xE981 case 3 => 0x2940
    case 4 => 0xEB01 case 5 => 0x2BC0 case 6 => 0x2A80 case 7 => 0xEA41
    case 8 => 0xEE01 case 9 => 0x2EC0 case 10 => 0x2F80 case 11 => 0xEF41
    case 12 => 0x2D00 case 13 => 0xEDC1 case 14 => 0xEC81 case _ => 0x2C40
  }

  function Row7(j: bv8): bv16 {
    match j
    case 0 => 0xE401 case 1 => 0x24C0 case 2 => 0x2580 case 3 => 0xE541
    case 4 => 0x2700 case 5 => 0xE7C1 case 6 => 0xE681 case 7 => 0x2640
    case 8 => 0x2200 case 9 => 0xE2C1 case 10 => 0xE381 case 11 => 0x2340
    case 12 => 0xE101 case 13 => 0x21C0 case 14 => 0x2080 case _ => 0xE041
  }

  function Row8(j: bv8): bv16 {
    match j
    case 0 => 0xA001 case 1 => 0x60C0 case 2 => 0x6180 case 3 => 0xA141
    case 4 => 0x6300 case 5 => 0xA3C1 case 6 => 0xA281 case 7 => 0x6240
    case 8 => 0x6600 case 9 => 0xA6C1 case 10 => 0xA781 case 11 => 0x6740
    case 12 => 0xA501 case 13 => 0x65C0 case 14 => 0x6480 case _ => 0xA441
  }

  function Row9(j: bv8): bv16 {
    match j
    case 0 => 0x6C00 case 1 => 0xACC1 case 2 => 0xAD81 case 3 => 0x6D40
    case 4 => 0xAF01 case 5 => 0x6FC0 case 6 => 0x6E80 case 7 => 0xAE41
    case 8 => 0xAA01 case 9 => 0x6AC0 case 10 => 0x6B80 case 11 => 0xAB41
    case 12 => 0x6900 case 13 => 0xA9C1 case 14 => 0xA881 case _ => 0x6840
  }

  function RowA(j: bv8): bv16 {
    match j
    case 0 => 0x7800 case 1 => 0xB8C1 case 2 => 0xB981 case 3 => 0x7940
    case 4 => 0xBB01 case 5 => 0x7BC0 case 6 => 0x7A80 case 7 => 0xBA41
    case 8 => 0xBE01 case 9 => 0x7EC0 case 10 => 0x7F80 case 11 => 0xBF41
    case 12 => 0x7D00 case 13 => 0xBDC1 case 14 => 0xBC81 case _ => 0x7C40
  }

  function RowB(j: bv8): bv16 {
    match j
    case 0 => 0xB401 case 1 => 0x74C0 case 2 => 0x7580 case 3 => 0xB541
    case 4 => 0x7700 case 5 => 0xB7C1 case 6 => 0xB681 case 7 => 0x7640
    case 8 => 0x7200 case 9 => 0xB2C1 case 10 => 0xB381 case 11 => 0x7340
    case 12 => 0xB101 case 13 => 0x71C0 case 14 => 0x7080 case _ => 0xB041
  }

  function RowC(j: bv8): bv16 {
    match j
    case 0 => 0x5000 case 1 => 0x90C1 case 2 => 0x9181 case 3 => 0x5140
    case 4 => 0x9301 case 5 => 0x53C0 case 6 => 0x5280 case 7 => 0x9241
    case 8 => 0x9601 case 9 => 0x56C0 case 10 => 0x5780 case 11 => 0x9741
    case 12 => 0x5500 case 13 => 0x95C1 case 14 => 0x9481 case _ => 0x5440
  }

  function RowD(j: bv8): bv16 {
    match j
    case 0 => 0x9C01 case 1 => 0x5CC0 case 2 => 0x5D80 case 3 => 0x9D41
    case 4 => 0x5F00 case 5 => 0x9FC1 case 6 => 0x9E81 case 7 => 0x5E40
    case 8 => 0x5A00 case 9 => 0x9AC1 case 10 => 0x9B81 case 11 => 0x5B40
    case 12 => 0x9901 case 13 => 0x59C0 case 14 => 0x5880 case _ => 0x9841
  }

  function RowE(j: bv8): bv16 {
    match j
    case 0 => 0x8801 case 1 => 0x48C0 case 2 => 0x4980 case 3 => 0x8941
    case 4 => 0x4B00 case 5 => 0x8BC1 case 6 => 0x8A81 case 7 => 0x4A40
    case 8 => 0x4E00 case 9 => 0x8EC1 case 10 => 0x8F81 case 11 => 0x4F40
    case 12 => 0x8D01 case 13 => 0x4DC0 case 14 => 0x4C80 case _ => 0x8C41
  }

  function RowF(j: bv8): bv16 {
    match j
    case 0 => 0x4400 case 1 => 0x84C1 case 2 => 0x8581 case 3 => 0x4540
    case 4 => 0x8701 case 5 => 0x47C0 case 6 => 0x4680 case 7 => 0x8641
    case 8 => 0x8201 case 9 => 0x42C0 case 10 => 0x4380 case 11 => 0x8341
    case 12 => 0x4100 case 13 => 0x81C1 case 14 => 0x8081 case _ => 0x4040
  }

  // crc16_table
  function Table(i: bv8): bv16 {
    match i >> 4
    case 0 => Row0(i & 15)
    case 1 => Row1(i & 15)
    case 2 => Row2(i & 15)
    case 3 => Row3(i & 15)
    case 4 => Row4(i & 15)
    case 5 => Row5(i & 15)
    case 6 => Row6(i & 15)
    case 7 => Row7(i & 15)
    case 8 => Row8(i & 15)
    case 9 => Row9(i & 15)
    case 10 => RowA(i & 15)
    case 11 => RowB(i & 15)
    case 12 => RowC(i & 15)
    case 13 => RowD(i & 15)
    case 14 => RowE(i & 15)
    case _ => RowF(i & 15)
  }

  // crc16
  function Crc(crc: bv16, buf: bv8): bv16 {
    (crc >> 8) ^ Table(((crc & 0xff) as bv8) ^ buf)
  }

  // One step of the bit-by-bit division by the reflected polynomial.
  function Bit(x: bv16): bv16 {
    if x & 1 == 1 then (x >> 1) ^ 0xA001 else x >> 1
  }

  function Bits8(x: bv16): bv16 {
    Bit(Bit(Bit(Bit(Bit(Bit(Bit(Bit(x))))))))
  }

  lemma Row0IsDivision(i: bv8)
    requires i >> 4 == 0
    ensures Row0(i & 15) == Bits8(i as bv16)
  {
  }

  lemma Row1IsDivision(i: bv8)
    requires i >> 4 == 1
    ensures Row1(i & 15) == Bits8(i as bv16)
  {
  }

  lemma Row2IsDivision(i: bv8)
    requires i >> 4 == 2
    ensures Row2(i & 15) == Bits8(i as bv16)
  {
  }

  lemma Row3IsDivision(i: bv8)
    requires i >> 4 == 3
    ensures Row3(i & 15) == Bits8(i as bv16)
  {
  }

  lemma Row4IsDivision(i: bv8)
    requires i >> 4 == 4
    ensures Row4(i & 15) == Bits8(i as bv16)
  {
  }

  lemma Row5IsDivision(i: bv8)
    requires i >> 4 == 5
    ensures Row5(i & 15) == Bits8(i as bv16)
  {
  }

  lemma Row6IsDivision(i: bv8)
    requires i >> 4 == 6
    ensures Row6(i & 15) == Bits8(i as bv16)
  {
  }

  lemma Row7IsDivision(i: bv8)
    requires i >> 4 == 7
    ensures Row7(i & 15) == Bits8(i as bv16)
  {
  }

  lemma Row8IsDivision(i: bv8)
    requires i >> 4 == 8
    ensures Row8(i & 15) == Bits8(i as bv16)
  {
  }

  lemma Row9IsDivision(i: bv8)
    requires i >> 4 == 9
    ensures Row9(i & 15) == Bits8(i as bv16)
  {
  }

  lemma RowAIsDivision(i: bv8)
    requires i >> 4 == 10
    ensures RowA(i & 15) == Bits8(i as bv16)
  {
  }

  lemma RowBIsDivision(i: bv8)
    requires i >> 4 == 11
    ensures RowB(i & 15) == Bits8(i as bv16)
  {
  }

  lemma RowCIsDivision(i: bv8)
    requires i >> 4 == 12
    ensures RowC(i & 15) == Bits8(i as bv16)
  {
  }

  lemma RowDIsDivision(i: bv8)
    requires i >> 4 == 13
    ensures RowD(i & 15) == Bits8(i as bv16)
  {
  }

  lemma RowEIsDivision(i: bv8)
    requires i >> 4 == 14
    ensures RowE(i & 15) == Bits8(i as bv16)
  {
  }

  lemma RowFIsDivision(i: bv8)
    requires i >> 4 == 15
    ensures RowF(i & 15) == Bits8(i as bv16)
  {
  }

  lemma TableIsDivision(i: bv8)
    ensures Table(i) == Bits8(i as bv16)
  {
    hide Bits8;
    match i >> 4
    case 0 => Row0IsDivision(i);
    case 1 => Row1IsDivision(i);
    case 2 => Row2IsDivision(i);
    case 3 => Row3IsDivision(i);
    case 4 => Row4IsDivision(i);
    case 5 => Row5IsDivision(i);
    case 6 => Row6IsDivision(i);
    case 7 => Row7IsDivision(i);
    case 8 => Row8IsDivision(i);
    case 9 => Row9IsDivision(i);
    case 10 => RowAIsDivision(i);
    case 11 => RowBIsDivision(i);
    case 12 => RowCIsDivision(i);
    case 13 => RowDIsDivision(i);
    case 14 => RowEIsDivision(i);
    case _ => RowFIsDivision(i);
  }

  // Exclusive or under a name, so that proofs can treat it as an abelian group operation.
  function Xor(x: bv16, y: bv16): bv16 {
    x ^ y
  }

  lemma XorAssoc(x: bv16, y: bv16, z: bv16)
    ensures Xor(Xor(x, y), z) == Xor(x, Xor(y, z))
  {
  }

  lemma XorComm(x: bv16, y: bv16)
    ensures Xor(x, y) == Xor(y, x)
  {
  }

  lemma XorUnit(x: bv16)
    ensures Xor(x, x) == 0 && Xor(x, 0) == x && Xor(0, x) == x
  {
  }

  // (p + g) + (q + h) == (p + q) + (g + h)
  lemma XorSwap(p: bv16, g: bv16, q: bv16, h: bv16)
    ensures Xor(Xor(p, g), Xor(q, h)) == Xor(Xor(p, q), Xor(g, h))
  {
    hide Xor;
    XorAssoc(p, g, Xor(q, h));
    XorAssoc(g, q, h);
    XorComm(g, q);
    XorAssoc(q, g, h);
    XorAssoc(p, q, Xor(g, h));
  }

  // The carry of a division step, as a word.
  function Carry(x: bv16): bv16 {
    if x & 1 == 1 then 0xA001 else 0
  }

  lemma BitParts(x: bv16)
    ensures Bit(x) == Xor(x >> 1, Carry(x))
  {
    XorUnit(x >> 1);
    if x & 1 == 1 {
      assert Xor(x >> 1, 0xA001) == (x >> 1) ^ 0xA001;
    } else {
      hide Xor;
    }
  }

  lemma ShiftXor(x: bv16, y: bv16)
    ensures Xor(x, y) >> 1 == Xor(x >> 1, y >> 1)
  {
  }

  lemma LowXor(x: bv16, y: bv16)
    ensures Xor(x, y) & 1 == (x & 1) ^ (y & 1)
    ensures x & 1 == 0 || x & 1 == 1
  {
  }

  lemma CarryXor(x: bv16, y: bv16)
    ensures Carry(Xor(x, y)) == Xor(Carry(x), Carry(y))
  {
    LowXor(x, y);
    LowXor(y, x);
    XorUnit(0xA001);
    hide Xor;
    XorUnit(0);
  }

  // Division is linear over exclusive or.
  lemma BitXor(x: bv16, y: bv16)
    ensures Bit(Xor(x, y)) == Xor(Bit(x), Bit(y))
  {
    hide Bit;
    hide Xor;
    hide Carry;
    BitParts(x);
    BitParts(y);
    BitParts(Xor(x, y));
    ShiftXor(x, y);
    CarryXor(x, y);
    XorSwap(x >> 1, Carry(x), y >> 1, Carry(y));
  }

  lemma Bits8Xor(x: bv16, y: bv16)
    ensures Bits8(Xor(x, y)) == Xor(Bits8(x), Bits8(y))
  {
    hide Bit;
    hide Xor;
    var x1, y1 := Bit(x), Bit(y);
    var x2, y2 := Bit(x1), Bit(y1);
    var x3, y3 := Bit(x2), Bit(y2);
    var x4, y4 := Bit(x3), Bit(y3);
    var x5, y5 := Bit(x4), Bit(y4);
    var x6, y6 := Bit(x5), Bit(y5);
    var x7, y7 := Bit(x6), Bit(y6);
    BitXor(x, y);
    BitXor(x1, y1);
    BitXor(x2, y2);
    BitXor(x3, y3);
    BitXor(x4, y4);
    BitXor(x5, y5);
    BitXor(x6, y6);
    BitXor(x7, y7);
  }

  lemma Bits8High(x: bv16)
    requires x & 0xff == 0
    ensures Bits8(x) == x >> 8
  {
  }

  lemma Halves(x: bv16)
    ensures x == Xor(x & 0xff00, x & 0xff) && (x & 0xff00) & 0xff == 0 && (x & 0xff00) >> 8 == x >> 8
  {
  }

  lemma ByteIn(crc: bv16, buf: bv8)
    ensures Xor(crc, buf as bv16) >> 8 == crc >> 8
    ensures Xor(crc, buf as bv16) & 0xff == (((crc & 0xff) as bv8) ^ buf) as bv16
  {
  }

  lemma CrcParts(crc: bv16, buf: bv8)
    ensures Crc(crc, buf) == Xor(crc >> 8, Table(((crc & 0xff) as bv8) ^ buf))
  {
    hide Table;
  }

  // The table step is eight steps of the division, the byte entering at the low end.
  lemma CrcIsDivision(crc: bv16, buf: bv8)
    ensures Crc(crc, buf) == Bits8(Xor(crc, buf as bv16))
  {
    hide Table;
    hide Bits8;
    var x := Xor(crc, buf as bv16);
    Halves(x);
    ByteIn(crc, buf);
    TableIsDivision(((crc & 0xff) as bv8) ^ buf);
    CrcParts(crc, buf);
    hide Xor;
    hide Crc;
    Bits8Xor(x & 0xff00, x & 0xff);
    Bits8High(x & 0xff00);
  }

  // ----- whole messages -----

  // dsmr.c folds crc16 over the bytes of a telegram.
  function Fold(crc: bv16, m: seq<bv8>): bv16
    decreases |m|
  {
    if m == [] then crc else Fold(Crc(crc, m[0]), m[1..])
  }

  lemma {:induction false} FoldConcat(crc: bv16, a: seq<bv8>, b: seq<bv8>)
    ensures Fold(crc, a + b) == Fold(Fold(crc, a), b)
    decreases |a|
  {
    hide Crc;
    if a == [] {
      assert a + b == b;
    } else {
      FoldConcat(Crc(crc, a[0]), a[1..], b);
      assert (a + b)[1..] == a[1..] + b;
    }
  }

  // The reference: a shift register dividing a bit string, first bit first.
  function BitIn(x: bv16, bit: bool): bv16 {
    if (x & 1 == 1) != bit then (x >> 1) ^ 0xA001 else x >> 1
  }

  function Divide(x: bv16, bits: seq<bool>): bv16
    decreases |bits|
  {
    if bits == [] then x else Divide(BitIn(x, bits[0]), bits[1..])
  }

  function BitsOf(b: bv8): seq<bool> {
    [b & 1 == 1, (b >> 1) & 1 == 1, (b >> 2) & 1 == 1, (b >> 3) & 1 == 1,
     (b >> 4) & 1 == 1, (b >> 5) & 1 == 1, (b >> 6) & 1 == 1, (b >> 7) & 1 == 1]
  }

  function BitString(m: seq<bv8>): seq<bool> {
    if m == [] then [] else BitsOf(m[0]) + BitString(m[1..])
  }

  lemma {:induction false} DivideConcat(x: bv16, a: seq<bool>, b: seq<bool>)
    ensures Divide(x, a + b) == Divide(Divide(x, a), b)
    decreases |a|
  {
    hide BitIn;
    if a == [] {
      assert a + b == b;
    } else {
      DivideConcat(BitIn(x, a[0]), a[1..], b);
      assert (a + b)[1..] == a[1..] + b;
    }
  }

  // A step on a word that already has the input exclusive-ored in, against the register taking
  // the input bit by bit.
  lemma BitAgainstBitIn(x: bv16, y: bv16)
    ensures Bit(Xor(x, y)) == Xor(BitIn(x, y & 1 == 1), y >> 1)
  {
    LowXor(x, y);
    ShiftXor(x, y);
    BitParts(Xor(x, y));
    BitInParts(x, y & 1 == 1);
    hide Bit;
    hide BitIn;
    var k := if (x & 1 == 1) != (y & 1 == 1) then 0xA001 else 0;
    assert Carry(Xor(x, y)) == k;
    hide Xor;
    hide Carry;
    XorAssoc(x >> 1, y >> 1, k);
    XorComm(y >> 1, k);
    XorAssoc(x >> 1, k, y >> 1);
  }

  lemma BitInParts(x: bv16, bit: bool)
    ensures BitIn(x, bit) == Xor(x >> 1, if (x & 1 == 1) != bit then 0xA001 else 0)
  {
    XorUnit(x >> 1);
    if (x & 1 == 1) != bit {
      assert Xor(x >> 1, 0xA001) == (x >> 1) ^ 0xA001;
    } else {
      hide Xor;
    }
  }

  lemma Bits8IsDivide(x: bv16, b: bv8)
    ensures Bits8(Xor(x, b as bv16)) == Divide(x, BitsOf(b))
  {
    var y := b as bv16;
    BitsOfWord(b);
    hide Bit;
    hide Xor;
    hide BitIn;
    hide BitsOf;
    var e := BitsOf(b);
    var x1 := BitIn(x, e[0]);
    var x2 := BitIn(x1, e[1]);
    var x3 := BitIn(x2, e[2]);
    var x4 := BitIn(x3, e[3]);
    var x5 := BitIn(x4, e[4]);
    var x6 := BitIn(x5, e[5]);
    var x7 := BitIn(x6, e[6]);
    var x8 := BitIn(x7, e[7]);
    BitAgainstBitIn(x, y);
    BitAgainstBitIn(x1, y >> 1);
    BitAgainstBitIn(x2, y >> 2);
    BitAgainstBitIn(x3, y >> 3);
    BitAgainstBitIn(x4, y >> 4);
    BitAgainstBitIn(x5, y >> 5);
    BitAgainstBitIn(x6, y >> 6);
    BitAgainstBitIn(x7, y >> 7);
    XorUnit(x8);
    Divide8(x, e);
  }

  lemma Divide8(x: bv16, e: seq<bool>)
    requires |e| == 8
    ensures Divide(x, e)
            == BitIn(BitIn(BitIn(BitIn(BitIn(BitIn(BitIn(BitIn(x, e[0]), e[1]), e[2]), e[3]), e[4]), e[5]), e[6]), e[7])
  {
    hide BitIn;
    Divide2(x, e);
    Divide2(BitIn(BitIn(x, e[0]), e[1]), e[2..]);
    var x4 := BitIn(BitIn(BitIn(BitIn(x, e[0]), e[1]), e[2]), e[3]);
    assert e[2..][2..] == e[4..];
    Divide2(x4, e[4..]);
    assert e[4..][2..] == e[6..];
    Divide2(BitIn(BitIn(x4, e[4]), e[5]), e[6..]);
    assert e[6..][2..] == [];
  }

  lemma Divide2(x: bv16, e: seq<bool>)
    requires |e| >= 2
    ensures Divide(x, e) == Divide(BitIn(BitIn(x, e[0]), e[1]), e[2..])
  {
    hide BitIn;
    assert e[1..][1..] == e[2..];
  }

  lemma BitsOfWord(b: bv8)
    ensures var y := b as bv16;
            BitsOf(b) == [y & 1 == 1, (y >> 1) & 1 == 1, (y >> 2) & 1 == 1, (y >> 3) & 1 == 1,
                          (y >> 4) & 1 == 1, (y >> 5) & 1 == 1, (y >> 6) & 1 == 1, (y >> 7) & 1 == 1]
    ensures var y := b as bv16;
            (y >> 1) >> 1 == y >> 2 && (y >> 2) >> 1 == y >> 3 && (y >> 3) >> 1 == y >> 4 && (y >> 4) >> 1 == y >> 5
            && (y >> 5) >> 1 == y >> 6 && (y >> 6) >> 1 == y >> 7 && (y >> 7) >> 1 == 0
  {
  }

  // The table-driven fold is the division of the message's bit string.
  lemma {:induction false} FoldIsDivision(crc: bv16, m: seq<bv8>)
    ensures Fold(crc, m) == Divide(crc, BitString(m))
    decreases |m|
  {
    hide Crc;
    hide Bits8;
    hide BitsOf;
    hide BitIn;
    if m != [] {
      CrcIsDivision(crc, m[0]);
      Bits8IsDivide(crc, m[0]);
      DivideConcat(crc, BitsOf(m[0]), BitString(m[1..]));
      FoldIsDivision(Crc(crc, m[0]), m[1..]);
    }
  }

  // ----- linearity -----

  ghost function XorBytes(m: seq<bv8>, n: seq<bv8>): seq<bv8>
    requires |m| == |n|
  {
    seq(|m|, i requires 0 <= i < |m| => m[i] ^ n[i])
  }

  lemma BytesXor(c: bv16, d: bv16, a: bv8, b: bv8)
    ensures Xor(Xor(c, d), (a ^ b) as bv16) == Xor(Xor(c, a as bv16), Xor(d, b as bv16))
  {
    ByteXor(a, b);
    hide Xor;
    XorSwap(c, d, a as bv16, b as bv16);
  }

  lemma ByteXor(a: bv8, b: bv8)
    ensures (a ^ b) as bv16 == Xor(a as bv16, b as bv16)
  {
  }

  lemma CrcXor(c: bv16, d: bv16, a: bv8, b: bv8)
    ensures Crc(Xor(c, d), a ^ b) == Xor(Crc(c, a), Crc(d, b))
  {
    hide Crc;
    hide Xor;
    hide Bits8;
    CrcIsDivision(Xor(c, d), a ^ b);
    CrcIsDivision(c, a);
    CrcIsDivision(d, b);
    BytesXor(c, d, a, b);
    Bits8Xor(Xor(c, a as bv16), Xor(d, b as bv16));
  }

  // The fold is linear over exclusive or of equally long messages and of start values.
  lemma {:induction false} FoldXor(c: bv16, d: bv16, m: seq<bv8>, n: seq<bv8>)
    requires |m| == |n|
    ensures Fold(Xor(c, d), XorBytes(m, n)) == Xor(Fold(c, m), Fold(d, n))
    decreases |m|
  {
    hide Crc;
    hide Xor;
    if m != [] {
      CrcXor(c, d, m[0], n[0]);
      assert XorBytes(m, n)[1..] == XorBytes(m[1..], n[1..]);
      FoldXor(Crc(c, m[0]), Crc(d, n[0]), m[1..], n[1..]);
    }
  }

  // ----- every step is a bijection on the register -----

  function Unbit(y: bv16): bv16 {
    if y & 0x8000 == 0x8000 then ((y ^ 0xA001) << 1) | 1 else y << 1
  }

  lemma UnbitBit(x: bv16)
    ensures Unbit(Bit(x)) == x
  {
  }

  lemma BitUnbit(x: bv16)
    ensures Bit(Unbit(x)) == x
  {
    if x & 0x8000 == 0x8000 {
      UnbitHigh(x);
    } else {
      UnbitLow(x);
    }
    hide Bit;
    hide Unbit;
  }

  lemma UnbitHigh(x: bv16)
    requires x & 0x8000 == 0x8000
    ensures Bit(((x ^ 0xA001) << 1) | 1) == x
  {
    assert (((x ^ 0xA001) << 1) | 1) & 1 == 1;
    assert (((x ^ 0xA001) << 1) | 1) >> 1 == x ^ 0xA001;
    assert (x ^ 0xA001) ^ 0xA001 == x;
  }

  lemma UnbitLow(x: bv16)
    requires x & 0x8000 != 0x8000
    ensures Bit(x << 1) == x
  {
    assert (x << 1) & 1 == 0;
    assert (x << 1) >> 1 == x;
  }

  lemma BitInInjective(x: bv16, y: bv16, bit: bool)
    requires BitIn(x, bit) == BitIn(y, bit)
    ensures x == y
  {
    FlipLow(x, bit);
    FlipLow(y, bit);
    UnbitBit(Flip(x, bit));
    UnbitBit(Flip(y, bit));
    hide Bit;
    hide BitIn;
    hide Unbit;
  }

  function Flip(x: bv16, bit: bool): bv16 {
    if bit then x ^ 1 else x
  }

  lemma FlipLow(x: bv16, bit: bool)
    ensures BitIn(x, bit) == Bit(Flip(x, bit)) && Flip(Flip(x, bit), bit) == x
  {
  }

  lemma {:induction false} DivideInjective(x: bv16, y: bv16, bits: seq<bool>)
    requires Divide(x, bits) == Divide(y, bits)
    ensures x == y
    decreases |bits|
  {
    hide BitIn;
    if bits != [] {
      DivideInjective(BitIn(x, bits[0]), BitIn(y, bits[0]), bits[1..]);
      BitInInjective(x, y, bits[0]);
    }
  }

  // Undoing one byte: for a fixed byte, crc16 is a bijection on the 16-bit state.
  function Uncrc(y: bv16, buf: bv8): bv16 {
    Xor(Unbit(Unbit(Unbit(Unbit(Unbit(Unbit(Unbit(Unbit(y)))))))), buf as bv16)
  }

  lemma CrcBijective(x: bv16, buf: bv8)
    ensures Uncrc(Crc(x, buf), buf) == x && Crc(Uncrc(x, buf), buf) == x
  {
    hide Crc;
    hide Xor;
    hide Bit;
    hide Unbit;
    var b := buf as bv16;
    CrcIsDivision(x, buf);
    Unbits8(Xor(x, b));
    XorTwice(x, b);
    CrcIsDivision(Uncrc(x, buf), buf);
    Unbits8(x);
    XorTwice(Unbit(Unbit(Unbit(Unbit(Unbit(Unbit(Unbit(Unbit(x)))))))), b);
  }

  lemma XorTwice(x: bv16, b: bv16)
    ensures Xor(Xor(x, b), b) == x
  {
    XorUnit(b);
    XorUnit(x);
    hide Xor;
    XorAssoc(x, b, b);
  }

  lemma Unbits8(x: bv16)
    ensures Unbit(Unbit(Unbit(Unbit(Unbit(Unbit(Unbit(Unbit(Bits8(x))))))))) == x
    ensures Bits8(Unbit(Unbit(Unbit(Unbit(Unbit(Unbit(Unbit(Unbit(x))))))))) == x
  {
    hide Bit;
    hide Unbit;
    var x1 := Bit(x); var x2 := Bit(x1); var x3 := Bit(x2); var x4 := Bit(x3);
    var x5 := Bit(x4); var x6 := Bit(x5); var x7 := Bit(x6);
    UnbitBit(x); UnbitBit(x1); UnbitBit(x2); UnbitBit(x3);
    UnbitBit(x4); UnbitBit(x5); UnbitBit(x6); UnbitBit(x7);
    var y1 := Unbit(x); var y2 := Unbit(y1); var y3 := Unbit(y2); var y4 := Unbit(y3);
    var y5 := Unbit(y4); var y6 := Unbit(y5); var y7 := Unbit(y6);
    BitUnbit(x); BitUnbit(y1); BitUnbit(y2); BitUnbit(y3);
    BitUnbit(y4); BitUnbit(y5); BitUnbit(y6); BitUnbit(y7);
  }

  // ----- error bursts -----

  function Push(x: bv16, bit: bool): bv16 {
    (x << 1) | (if bit then 1 else 0)
  }

  // The word whose binary digits, lowest first, are `e`.
  function Word(e: seq<bool>): bv16
    decreases |e|
  {
    if e == [] then 0 else Push(Word(e[1..]), e[0])
  }

  // The places a word of n digits leaves empty.
  function Free(n: nat): bv16 {
    if n == 0 then 0xffff else Free(n - 1) << 1
  }

  lemma FreeTop(n: nat)
    requires n <= 15
    ensures Free(n) & 0x8000 == 0x8000
  {
    assert Free(1) == 0xfffe; assert Free(2) == 0xfffc; assert Free(3) == 0xfff8; assert Free(4) == 0xfff0;
    assert Free(5) == 0xffe0; assert Free(6) == 0xffc0; assert Free(7) == 0xff80; assert Free(8) == 0xff00;
    assert Free(9) == 0xfe00; assert Free(10) == 0xfc00; assert Free(11) == 0xf800; assert Free(12) == 0xf000;
    assert Free(13) == 0xe000; assert Free(14) == 0xc000; assert Free(15) == 0x8000;
  }

  predicate Apart(w: bv16, f: bv16) {
    w & f == 0
  }

  lemma NothingApart()
    ensures Apart(0, 0xffff)
  {
  }

  lemma PushFree(x: bv16, f: bv16, bit: bool)
    requires Apart(x, f)
    ensures Apart(Push(x, bit), f << 1)
  {
    assert (x << 1) & (f << 1) == (x & f) << 1;
    assert 1 & (f << 1) == 0;
    if bit {
      assert ((x << 1) | 1) & (f << 1) == ((x << 1) & (f << 1)) | (1 & (f << 1));
    }
  }

  lemma {:induction false} WordFree(e: seq<bool>)
    ensures Apart(Word(e), Free(|e|))
    decreases |e|
  {
    NothingApart();
    hide Push;
    hide Apart;
    if e != [] {
      WordFree(e[1..]);
      PushFree(Word(e[1..]), Free(|e| - 1), e[0]);
    }
  }

  lemma WordBound(e: seq<bool>)
    requires |e| <= 15
    ensures Word(e) & 0x8000 == 0
  {
    hide Word;
    hide Free;
    WordFree(e);
    FreeTop(|e|);
    TopEmpty(Word(e), Free(|e|));
  }

  lemma TopEmpty(w: bv16, f: bv16)
    requires Apart(w, f) && f & 0x8000 == 0x8000
    ensures w & 0x8000 == 0
  {
  }

  lemma PushBitIn(x: bv16, bit: bool)
    requires x & 0x8000 == 0
    ensures BitIn(Push(x, bit), bit) == x
  {
    assert (x << 1) & 1 == 0 && (x << 1) >> 1 == x;
    assert ((x << 1) | 1) & 1 == 1 && ((x << 1) | 1) >> 1 == x;
    if bit {
      assert Push(x, bit) == (x << 1) | 1;
    } else {
      assert (x << 1) | 0 == x << 1;
      assert Push(x, bit) == x << 1;
    }
  }

  lemma PushZero(x: bv16, bit: bool)
    requires x & 0x8000 == 0 && Push(x, bit) == 0
    ensures x == 0 && !bit
  {
  }

  // Up to sixteen digits run out of the register with nothing fed back.
  lemma {:induction false} DivideWord(e: seq<bool>)
    requires |e| <= 16
    ensures Divide(Word(e), e) == 0
    decreases |e|
  {
    hide Push;
    hide BitIn;
    if e != [] {
      WordBound(e[1..]);
      PushBitIn(Word(e[1..]), e[0]);
      DivideWord(e[1..]);
    }
  }

  lemma {:induction false} WordZero(e: seq<bool>)
    requires |e| <= 16 && Word(e) == 0
    ensures forall i | 0 <= i < |e| :: !e[i]
    decreases |e|
  {
    hide Push;
    if e != [] {
      WordBound(e[1..]);
      PushZero(Word(e[1..]), e[0]);
      WordZero(e[1..]);
    }
  }

  // ----- differences of bit strings -----

  function XorBits(a: seq<bool>, b: seq<bool>): seq<bool>
    requires |a| == |b|
  {
    seq(|a|, i requires 0 <= i < |a| => a[i] != b[i])
  }

  lemma BitInXor(x: bv16, y: bv16, a: bool, b: bool)
    ensures BitIn(Xor(x, y), a != b) == Xor(BitIn(x, a), BitIn(y, b))
  {
    BitInFlip(x, a);
    BitInFlip(y, b);
    BitInFlip(Xor(x, y), a != b);
    hide BitIn;
    hide Bit;
    BitXor(Flip16(x, a), Flip16(y, b));
    FlipXor(x, y, a, b);
  }

  function Flip16(x: bv16, bit: bool): bv16 {
    Xor(x, if bit then 1 else 0)
  }

  lemma BitInFlip(x: bv16, bit: bool)
    ensures BitIn(x, bit) == Bit(Flip16(x, bit))
  {
    FlipLow(x, bit);
    XorUnit(x);
    hide Bit;
    hide BitIn;
  }

  lemma FlipXor(x: bv16, y: bv16, a: bool, b: bool)
    ensures Flip16(Xor(x, y), a != b) == Xor(Flip16(x, a), Flip16(y, b))
  {
    XorUnit(1);
    XorUnit(0);
    hide Xor;
    XorSwap(x, if a then 1 else 0, y, if b then 1 else 0);
  }

  lemma {:induction false} DivideXor(x: bv16, y: bv16, a: seq<bool>, b: seq<bool>)
    requires |a| == |b|
    ensures Divide(Xor(x, y), XorBits(a, b)) == Xor(Divide(x, a), Divide(y, b))
    decreases |a|
  {
    hide BitIn;
    hide Xor;
    if a != [] {
      BitInXor(x, y, a[0], b[0]);
      assert XorBits(a, b)[1..] == XorBits(a[1..], b[1..]);
      DivideXor(BitIn(x, a[0]), BitIn(y, b[0]), a[1..], b[1..]);
    }
  }

  // Any difference confined to sixteen consecutive bits, wherever they lie, changes the remainder.
  lemma BurstDetected(x: bv16, p: seq<bool>, a: seq<bool>, b: seq<bool>, s: seq<bool>)
    requires |a| == |b| <= 16 && a != b
    ensures Divide(x, p + a + s) != Divide(x, p + b + s)
  {
    hide BitIn;
    hide Xor;
    var y := Divide(x, p);
    DivideConcat(x, p + a, s);
    DivideConcat(x, p, a);
    DivideConcat(x, p + b, s);
    DivideConcat(x, p, b);
    if Divide(x, p + a + s) == Divide(x, p + b + s) {
      DivideInjective(Divide(y, a), Divide(y, b), s);
      SameDigits(y, a, b);
    }
  }

  // Sixteen digits or fewer are determined by what they do to the register.
  lemma SameDigits(y: bv16, a: seq<bool>, b: seq<bool>)
    requires |a| == |b| <= 16 && Divide(y, a) == Divide(y, b)
    ensures a == b
  {
    hide BitIn;
    var e := XorBits(a, b);
    DivideXor(y, y, a, b);
    XorUnit(y);
    XorUnit(Divide(y, a));
    hide Xor;
    DivideWord(e);
    DivideInjective(Word(e), 0, e);
    WordZero(e);
    assert forall i | 0 <= i < |a| :: e[i] == (a[i] != b[i]);
  }

  lemma BitStringConcat(a: seq<bv8>, b: seq<bv8>)
    ensures BitString(a + b) == BitString(a) + BitString(b)
    decreases |a|
  {
    hide BitsOf;
    if a == [] {
      assert a + b == b;
    } else {
      BitStringConcat(a[1..], b);
      assert (a + b)[1..] == a[1..] + b;
    }
  }

  lemma BitsOfInjective(a: bv8, b: bv8)
    requires BitsOf(a) == BitsOf(b)
    ensures a == b
  {
    assert forall i | 0 <= i < 8 :: BitsOf(a)[i] == BitsOf(b)[i];
    BitsFix(a, b);
  }

  lemma BitsFix(a: bv8, b: bv8)
    requires (a & 1 == 1) == (b & 1 == 1) && ((a >> 1) & 1 == 1) == ((b >> 1) & 1 == 1)
    requires ((a >> 2) & 1 == 1) == ((b >> 2) & 1 == 1) && ((a >> 3) & 1 == 1) == ((b >> 3) & 1 == 1)
    requires ((a >> 4) & 1 == 1) == ((b >> 4) & 1 == 1) && ((a >> 5) & 1 == 1) == ((b >> 5) & 1 == 1)
    requires ((a >> 6) & 1 == 1) == ((b >> 6) & 1 == 1) && ((a >> 7) & 1 == 1) == ((b >> 7) & 1 == 1)
    ensures a == b
  {
  }

  // Two messages that differ only within two adjacent bytes have different checksums.
  lemma TwoBytesDetected(x: bv16, p: seq<bv8>, a: seq<bv8>, b: seq<bv8>, s: seq<bv8>)
    requires |a| == |b| <= 2 && a != b
    ensures Fold(x, p + a + s) != Fold(x, p + b + s)
  {
    hide BitsOf;
    hide BitIn;
    hide Crc;
    FoldIsDivision(x, p + a + s);
    FoldIsDivision(x, p + b + s);
    BitStringConcat(p + a, s);
    BitStringConcat(p, a);
    BitStringConcat(p + b, s);
    BitStringConcat(p, b);
    BitStringSize(a);
    BitStringSize(b);
    if BitString(a) == BitString(b) {
      BitStringInjective(a, b);
      assert false;
    }
    BurstDetected(x, BitString(p), BitString(a), BitString(b), BitString(s));
  }

  lemma {:induction false} BitStringSize(m: seq<bv8>)
    ensures |BitString(m)| == 8 * |m|
    decreases |m|
  {
    if m != [] {
      BitStringSize(m[1..]);
    }
  }

  lemma {:induction false} BitStringInjective(a: seq<bv8>, b: seq<bv8>)
    requires |a| == |b| && BitString(a) == BitString(b)
    ensures a == b
    decreases |a|
  {
    hide BitsOf;
    if a != [] {
      assert BitsOf(a[0]) == BitString(a)[..8] && BitsOf(b[0]) == BitString(b)[..8] by {
        BitsOfSize(a[0]);
        BitsOfSize(b[0]);
      }
      assert BitString(a[1..]) == BitString(a)[8..] && BitString(b[1..]) == BitString(b)[8..] by {
        BitsOfSize(a[0]);
        BitsOfSize(b[0]);
      }
      BitsOfInjective(a[0], b[0]);
      BitStringInjective(a[1..], b[1..]);
    }
  }

  lemma BitsOfSize(b: bv8)
    ensures |BitsOf(b)| == 8
  {
  }

  // A message followed by its own checksum, low byte first, folds to zero.
  lemma Residue(x: bv16, m: seq<bv8>)
    ensures var c := Fold(x, m);
            Fold(x, m + [(c & 0xff) as bv8, (c >> 8) as bv8]) == 0
  {
    hide Crc;
    var c := Fold(x, m);
    FoldConcat(x, m, [(c & 0xff) as bv8, (c >> 8) as bv8]);
    OwnBytes(c);
  }

  lemma OwnBytes(c: bv16)
    ensures Fold(c, [(c & 0xff) as bv8, (c >> 8) as bv8]) == 0
  {
    hide Crc;
    hide Bits8;
    hide Xor;
    var lo, hi := (c & 0xff) as bv8, (c >> 8) as bv8;
    OwnLowStep(c);
    OwnHighStep(hi);
    FoldTwo(c, lo, hi);
  }

  lemma OwnLowStep(c: bv16)
    ensures Crc(c, (c & 0xff) as bv8) == ((c >> 8) as bv8) as bv16
  {
    hide Crc;
    hide Bits8;
    hide Xor;
    CrcIsDivision(c, (c & 0xff) as bv8);
    OwnLow(c);
    Bits8High(Xor(c, ((c & 0xff) as bv8) as bv16));
  }

  lemma OwnHighStep(b: bv8)
    ensures Crc(b as bv16, b) == 0
  {
    hide Crc;
    hide Bits8;
    hide Xor;
    CrcIsDivision(b as bv16, b);
    XorUnit(b as bv16);
    Bits8High(0);
  }

  lemma FoldTwo(c: bv16, a: bv8, b: bv8)
    ensures Fold(c, [a, b]) == Crc(Crc(c, a), b)
  {
    hide Crc;
    assert [a, b][1..] == [b] && [b][1..] == [];
    assert Fold(c, [a, b]) == Fold(Crc(c, a), [b]);
    assert Fold(Crc(c, a), [b]) == Fold(Crc(Crc(c, a), b), []);
  }

  lemma OwnLow(c: bv16)
    ensures Xor(c, ((c & 0xff) as bv8) as bv16) & 0xff == 0
    ensures Xor(c, ((c & 0xff) as bv8) as bv16) >> 8 == ((c >> 8) as bv8) as bv16
  {
  }
}
