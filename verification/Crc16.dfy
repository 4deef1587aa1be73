// crc16.cpp: the table-driven CRC-16 in its two dialects, and which errors each of them detects.
//
// The CRC algebra is stated over bit-vectors. The reference definition it is compared
// with is the shift register that divides the message, bit by bit and most significant
// bit first, by the generator polynomial.

module Crc16 {

  /** Column `j` of a row of eight table entries. */
  function Pick(j: bv8, a0: bv16, a1: bv16, a2: bv16, a3: bv16, a4: bv16, a5: bv16, a6: bv16, a7: bv16): bv16 {
    if j == 0 then a0 else if j == 1 then a1 else if j == 2 then a2 else if j == 3 then a3
    else if j == 4 then a4 else if j == 5 then a5 else if j == 6 then a6 else a7
  }

  /** The table of the CRC-16/CCITT generator x^16 + x^12 + x^5 + 1, eight entries a row. */
  function CorrectTable(i: bv8): bv16 {
    var j := i & 7;
    match i >> 3
    case 0 => Pick(j, 0x0000, 0x1021, 0x2042, 0x3063, 0x4084, 0x50A5, 0x60C6, 0x70E7)
    case 1 => Pick(j, 0x8108, 0x9129, 0xA14A, 0xB16B, 0xC18C, 0xD1AD, 0xE1CE, 0xF1EF)
    case 2 => Pick(j, 0x1231, 0x0210, 0x3273, 0x2252, 0x52B5, 0x4294, 0x72F7, 0x62D6)
    case 3 => Pick(j, 0x9339, 0x8318, 0xB37B, 0xA35A, 0xD3BD, 0xC39C, 0xF3FF, 0xE3DE)
    case 4 => Pick(j, 0x2462, 0x3443, 0x0420, 0x1401, 0x64E6, 0x74C7, 0x44A4, 0x5485)
    case 5 => Pick(j, 0xA56A, 0xB54B, 0x8528, 0x9509, 0xE5EE, 0xF5CF, 0xC5AC, 0xD58D)
    case 6 => Pick(j, 0x3653, 0x2672, 0x1611, 0x0630, 0x76D7, 0x66F6, 0x5695, 0x46B4)
    case 7 => Pick(j, 0xB75B, 0xA77A, 0x9719, 0x8738, 0xF7DF, 0xE7FE, 0xD79D, 0xC7BC)
    case 8 => Pick(j, 0x48C4, 0x58E5, 0x6886, 0x78A7, 0x0840, 0x1861, 0x2802, 0x3823)
    case 9 => Pick(j, 0xC9CC, 0xD9ED, 0xE98E, 0xF9AF, 0x8948, 0x9969, 0xA90A, 0xB92B)
    case 10 => Pick(j, 0x5AF5, 0x4AD4, 0x7AB7, 0x6A96, 0x1A71, 0x0A50, 0x3A33, 0x2A12)
    case 11 => Pick(j, 0xDBFD, 0xCBDC, 0xFBBF, 0xEB9E, 0x9B79, 0x8B58, 0xBB3B, 0xAB1A)
    case 12 => Pick(j, 0x6CA6, 0x7C87, 0x4CE4, 0x5CC5, 0x2C22, 0x3C03, 0x0C60, 0x1C41)
    case 13 => Pick(j, 0xEDAE, 0xFD8F, 0xCDEC, 0xDDCD, 0xAD2A, 0xBD0B, 0x8D68, 0x9D49)
    case 14 => Pick(j, 0x7E97, 0x6EB6, 0x5ED5, 0x4EF4, 0x3E13, 0x2E32, 0x1E51, 0x0E70)
    case 15 => Pick(j, 0xFF9F, 0xEFBE, 0xDFDD, 0xCFFC, 0xBF1B, 0xAF3A, 0x9F59, 0x8F78)
    case 16 => Pick(j, 0x9188, 0x81A9, 0xB1CA, 0xA1EB, 0xD10C, 0xC12D, 0xF14E, 0xE16F)
    case 17 => Pick(j, 0x1080, 0x00A1, 0x30C2, 0x20E3, 0x5004, 0x4025, 0x7046, 0x6067)
    case 18 => Pick(j, 0x83B9, 0x9398, 0xA3FB, 0xB3DA, 0xC33D, 0xD31C, 0xE37F, 0xF35E)
    case 19 => Pick(j, 0x02B1, 0x1290, 0x22F3, 0x32D2, 0x4235, 0x5214, 0x6277, 0x7256)
    case 20 => Pick(j, 0xB5EA, 0xA5CB, 0x95A8, 0x8589, 0xF56E, 0xE54F, 0xD52C, 0xC50D)
    case 21 => Pick(j, 0x34E2, 0x24C3, 0x14A0, 0x0481, 0x7466, 0x6447, 0x5424, 0x4405)
    case 22 => Pick(j, 0xA7DB, 0xB7FA, 0x8799, 0x97B8, 0xE75F, 0xF77E, 0xC71D, 0xD73C)
    case 23 => Pick(j, 0x26D3, 0x36F2, 0x0691, 0x16B0, 0x6657, 0x7676, 0x4615, 0x5634)
    case 24 => Pick(j, 0xD94C, 0xC96D, 0xF90E, 0xE92F, 0x99C8, 0x89E9, 0xB98A, 0xA9AB)
    case 25 => Pick(j, 0x5844, 0x4865, 0x7806, 0x6827, 0x18C0, 0x08E1, 0x3882, 0x28A3)
    case 26 => Pick(j, 0xCB7D, 0xDB5C, 0xEB3F, 0xFB1E, 0x8BF9, 0x9BD8, 0xABBB, 0xBB9A)
    case 27 => Pick(j, 0x4A75, 0x5A54, 0x6A37, 0x7A16, 0x0AF1, 0x1AD0, 0x2AB3, 0x3A92)
    case 28 => Pick(j, 0xFD2E, 0xED0F, 0xDD6C, 0xCD4D, 0xBDAA, 0xAD8B, 0x9DE8, 0x8DC9)
    case 29 => Pick(j, 0x7C26, 0x6C07, 0x5C64, 0x4C45, 0x3CA2, 0x2C83, 0x1CE0, 0x0CC1)
    case 30 => Pick(j, 0xEF1F, 0xFF3E, 0xCF5D, 0xDF7C, 0xAF9B, 0xBFBA, 0x8FD9, 0x9FF8)
    case _ => Pick(j, 0x6E17, 0x7E36, 0x4E55, 0x5E74, 0x2E93, 0x3EB2, 0x0ED1, 0x1EF0)
  }

  /** The corrupted table shipped by old field firmware. */
  function LegacyTable(i: bv8): bv16 {
    var j := i & 7;
    match i >> 3
    case 0 => Pick(j, 0x0000, 0x1021, 0x2042, 0x3063, 0x4084, 0x50A5, 0x60C6, 0x70E7)
    case 1 => Pick(j, 0x8108, 0x9129, 0xA14A, 0xB16B, 0xC18C, 0xD1AD, 0xE1CE, 0xF1EF)
    case 2 => Pick(j, 0x1231, 0x0210, 0x3273, 0x2252, 0x52B5, 0x4294, 0x72F7, 0x62D6)
    case 3 => Pick(j, 0x9339, 0x8318, 0xB37B, 0xA35A, 0xD3BD, 0xC39C, 0xF3FF, 0xE3DE)
    case 4 => Pick(j, 0x2462, 0x3443, 0x0420, 0x1401, 0x64E6, 0x74C7, 0x44A4, 0x5485)
    case 5 => Pick(j, 0xA56A, 0xB54B, 0x8528, 0x9509, 0xE5EE, 0xF5CF, 0xC5AC, 0xD58D)
    case 6 => Pick(j, 0x3653, 0x2672, 0x1611, 0x0630, 0x76D7, 0x66F6, 0x5695, 0x46B4)
    case 7 => Pick(j, 0xB75B, 0xA77A, 0x9719, 0x8738, 0xF7DF, 0xE7FE, 0xD79D, 0xC7BC)
    case 8 => Pick(j, 0x4864, 0x5845, 0x6826, 0x7807, 0x08E0, 0x18C1, 0x28A2, 0x38C3)
    case 9 => Pick(j, 0xC92C, 0xD90D, 0xE96E, 0xF94F, 0x89A8, 0x9989, 0xA9EA, 0xB9CB)
    case 10 => Pick(j, 0x5A15, 0x4A34, 0x7A57, 0x6A76, 0x1A91, 0x0AB0, 0x3AD3, 0x2AF2)
    case 11 => Pick(j, 0xDB1D, 0xCB3C, 0xFB5F, 0xEB7E, 0x9B99, 0x8BB8, 0xBBDB, 0xABFA)
    case 12 => Pick(j, 0x6CA6, 0x7C87, 0x4CE4, 0x5CC5, 0x2C22, 0x3C03, 0x0C60, 0x1C41)
    case 13 => Pick(j, 0xEDAE, 0xFD8F, 0xCDEC, 0xDDCD, 0xAD2A, 0xBD0B, 0x8D68, 0x9D49)
    case 14 => Pick(j, 0x7E97, 0x6EB6, 0x5ED5, 0x4EF4, 0x3E13, 0x2E32, 0x1E51, 0x0E70)
    case 15 => Pick(j, 0xFF9F, 0xEFBE, 0xDFDD, 0xCFFC, 0xBF1B, 0xAF3A, 0x9F59, 0x8F78)
    case 16 => Pick(j, 0x9188, 0x81A9, 0xB1CA, 0xA1EB, 0xD10C, 0xC12D, 0xF14E, 0xE16F)
    case 17 => Pick(j, 0x1080, 0x00A1, 0x30C2, 0x20E3, 0x5004, 0x4025, 0x7046, 0x6067)
    case 18 => Pick(j, 0x83B9, 0x9398, 0xA3FB, 0xB3DA, 0xC33D, 0xD31C, 0xE37F, 0xF35E)
    case 19 => Pick(j, 0x02B1, 0x1290, 0x22F3, 0x32D2, 0x4235, 0x5214, 0x6277, 0x7256)
    case 20 => Pick(j, 0xB5EA, 0xA5CB, 0x95A8, 0x8589, 0xF56E, 0xE54F, 0xD52C, 0xC50D)
    case 21 => Pick(j, 0x34E2, 0x24C3, 0x14A0, 0x0481, 0x7466, 0x6447, 0x5424, 0x4405)
    case 22 => Pick(j, 0xA7DB, 0xB7FA, 0x8799, 0x97B8, 0xE75F, 0xF77E, 0xC71D, 0xD73C)
    case 23 => Pick(j, 0x26D3, 0x36F2, 0x0691, 0x16B0, 0x6657, 0x7676, 0x4615, 0x5634)
    case 24 => Pick(j, 0xD94C, 0xC96D, 0xF90E, 0xE92F, 0x99C8, 0x89E9, 0xB98A, 0xA9AB)
    case 25 => Pick(j, 0x5844, 0x4865, 0x7806, 0x6827, 0x18C0, 0x08E1, 0x3882, 0x28A3)
    case 26 => Pick(j, 0xCB7D, 0xDB5C, 0xEB3F, 0xFB1E, 0x8BF9, 0x9BD8, 0xABBB, 0xBBBA)
    case 27 => Pick(j, 0x4A55, 0x5A74, 0x6A17, 0x7A36, 0x0AD1, 0x1AF0, 0x2A93, 0x3AB2)
    case 28 => Pick(j, 0xFD0E, 0xED2F, 0xDD4C, 0xCD6D, 0xBD8A, 0xAD8B, 0x9DE8, 0x8DC9)
    case 29 => Pick(j, 0x7C26, 0x6C07, 0x5C64, 0x4C45, 0x3CA2, 0x2C83, 0x1CE0, 0x0CC1)
    case 30 => Pick(j, 0xEF1F, 0xFF3E, 0xCF5D, 0xDF7C, 0xAF9B, 0xBFBA, 0x8FD9, 0x9FF8)
    case _ => Pick(j, 0x6E17, 0x7E36, 0x4E55, 0x5E74, 0x2E93, 0x3EB2, 0x0ED1, 0x1EF0)
  }

  datatype Dialect = Correct | Legacy

  function Table(d: Dialect, i: bv8): bv16 {
    match d
    case Correct => CorrectTable(i)
    case Legacy => LegacyTable(i)
  }

  /** The table entry that a step reads. */
  function Index(c: bv16, b: bv8): bv8 {
    ((c >> 8) as bv8) ^ b
  }

  function Step(d: Dialect, c: bv16, b: bv8): bv16 {
    (c << 8) ^ Table(d, Index(c, b))
  }

  function Crc(d: Dialect, msg: seq<bv8>, c: bv16): bv16 {
    if msg == [] then c else Crc(d, msg[1..], Step(d, c, msg[0]))
  }

  method Crc16Ccitt(data: seq<bv8>, init: bv16) returns (crc: bv16)
    ensures crc == Crc(Correct, data, init)
  {
    hide CorrectTable, LegacyTable;
    crc := init;
    var length, next := |data|, 0;
    while length != 0
      invariant 0 <= length && next + length == |data|
      invariant Crc(Correct, data[next..], crc) == Crc(Correct, data, init)
    {
      length := length - 1;
      assert data[next..][1..] == data[next + 1..];
      crc := (crc << 8) ^ CorrectTable(((crc >> 8) as bv8) ^ data[next]);
      next := next + 1;
    }
  }

  method Crc16CcittLegacy(data: seq<bv8>, init: bv16) returns (crc: bv16)
    ensures crc == Crc(Legacy, data, init)
  {
    hide CorrectTable, LegacyTable;
    crc := init;
    var length, next := |data|, 0;
    while length != 0
      invariant 0 <= length && next + length == |data|
      invariant Crc(Legacy, data[next..], crc) == Crc(Legacy, data, init)
    {
      length := length - 1;
      assert data[next..][1..] == data[next + 1..];
      crc := (crc << 8) ^ LegacyTable(((crc >> 8) as bv8) ^ data[next]);
      next := next + 1;
    }
  }

  // ---------------------------------------------------------------------------
  // Reference definition: division by the generator polynomial
  // ---------------------------------------------------------------------------

  /** Multiplication by x: an x^16 that is shifted out is worth x^12 + x^5 + 1. */
  function ShiftOnce(c: bv16): bv16 {
    var t := c >> 15;
    (c << 1) ^ (t << 12) ^ (t << 5) ^ t
  }

  /** One step of the dividing shift register: the next message bit enters at the top. */
  function DivideBit(c: bv16, bit: bv1): bv16 {
    ShiftOnce(c ^ ((bit as bv16) << 15))
  }

  function Divide(bits: seq<bv1>, c: bv16): bv16 {
    if bits == [] then c else Divide(bits[1..], DivideBit(c, bits[0]))
  }

  /** The bits of an octet, most significant first. */
  function BitsOf(b: bv8): (r: seq<bv1>)
    ensures |r| == 8
  {
    [((b >> 7) & 1) as bv1, ((b >> 6) & 1) as bv1, ((b >> 5) & 1) as bv1, ((b >> 4) & 1) as bv1,
     ((b >> 3) & 1) as bv1, ((b >> 2) & 1) as bv1, ((b >> 1) & 1) as bv1, (b & 1) as bv1]
  }

  function MessageBits(msg: seq<bv8>): (r: seq<bv1>)
    ensures |r| == 8 * |msg|
  {
    if msg == [] then [] else BitsOf(msg[0]) + MessageBits(msg[1..])
  }

  // ---------------------------------------------------------------------------
  // The table is eight shifts
  // ---------------------------------------------------------------------------

  function Top(b: bv8): bv16 {
    (b as bv16) << 8
  }

  function Shift8(c: bv16): bv16 {
    ShiftOnce(ShiftOnce(ShiftOnce(ShiftOnce(ShiftOnce(ShiftOnce(ShiftOnce(ShiftOnce(c))))))))
  }

  lemma CorrectQuarter0(i: bv8)
    requires i >> 6 == 0
    ensures CorrectTable(i) == Shift8(Top(i))
  {}

  lemma CorrectQuarter1(i: bv8)
    requires i >> 6 == 1
    ensures CorrectTable(i) == Shift8(Top(i))
  {}

  lemma CorrectQuarter2(i: bv8)
    requires i >> 6 == 2
    ensures CorrectTable(i) == Shift8(Top(i))
  {}

  lemma CorrectQuarter3(i: bv8)
    requires i >> 6 == 3
    ensures CorrectTable(i) == Shift8(Top(i))
  {}

  /** All 256 entries of the correct table are the remainders they stand for. */
  lemma TableEntryIsDivision(i: bv8)
    ensures CorrectTable(i) == Shift8(Top(i))
  {
    hide CorrectTable, Shift8;
    if i >> 6 == 0 {
      CorrectQuarter0(i);
    } else if i >> 6 == 1 {
      CorrectQuarter1(i);
    } else if i >> 6 == 2 {
      CorrectQuarter2(i);
    } else {
      CorrectQuarter3(i);
    }
  }

  function Xor(a: bv16, b: bv16): bv16 {
    a ^ b
  }

  lemma ShiftOnceDistributes(a: bv16, b: bv16)
    ensures ShiftOnce(a ^ b) == ShiftOnce(a) ^ ShiftOnce(b)
  {}

  lemma ShiftOnceLinear(a: bv16, b: bv16)
    ensures ShiftOnce(Xor(a, b)) == Xor(ShiftOnce(a), ShiftOnce(b))
  {
    hide ShiftOnce;
    ShiftOnceDistributes(a, b);
  }

  /** The register after n steps without message bits. */
  function ShiftN(n: nat, c: bv16): bv16 {
    if n == 0 then c else ShiftN(n - 1, ShiftOnce(c))
  }

  lemma {:induction false} ShiftNLinear(n: nat, a: bv16, b: bv16)
    ensures ShiftN(n, Xor(a, b)) == Xor(ShiftN(n, a), ShiftN(n, b))
  {
    hide ShiftOnce, Xor;
    if n != 0 {
      ShiftOnceLinear(a, b);
      ShiftNLinear(n - 1, ShiftOnce(a), ShiftOnce(b));
    }
  }

  lemma ShiftEightTimes(c: bv16)
    ensures ShiftN(8, c) == Shift8(c)
  {
    hide ShiftOnce;
    var c1 := ShiftOnce(c);
    var c2 := ShiftOnce(c1);
    var c3 := ShiftOnce(c2);
    var c4 := ShiftOnce(c3);
    var c5 := ShiftOnce(c4);
    var c6 := ShiftOnce(c5);
    var c7 := ShiftOnce(c6);
    assert ShiftN(8, c) == ShiftN(7, c1) == ShiftN(6, c2);
    assert ShiftN(6, c2) == ShiftN(5, c3) == ShiftN(4, c4);
    assert ShiftN(4, c4) == ShiftN(3, c5) == ShiftN(2, c6);
    assert ShiftN(2, c6) == ShiftN(1, c7);
    assert ShiftN(1, c7) == ShiftN(0, ShiftOnce(c7));
  }

  lemma LowHalf(c: bv16)
    ensures Shift8(c & 0x00FF) == c << 8
  {}

  /** The register with a message byte entered at the top. */
  function Enter(c: bv16, b: bv8): bv16 {
    Xor(c, Top(b))
  }

  lemma RegisterSplits(c: bv16, b: bv8)
    ensures c ^ ((b as bv16) << 8) == (((((c >> 8) as bv8) ^ b) as bv16) << 8) ^ (c & 0x00FF)
  {}

  lemma EnterSplits(c: bv16, b: bv8)
    ensures Enter(c, b) == Xor(Top(Index(c, b)), c & 0x00FF)
  {
    var i := ((c >> 8) as bv8) ^ b;
    EnterIs(c, b);
    TopOfIndex(c, b);
    RegisterSplits(c, b);
    hide Enter, Top, Index;
  }

  lemma EnterIs(c: bv16, b: bv8)
    ensures Enter(c, b) == c ^ ((b as bv16) << 8)
  {}

  lemma TopOfIndex(c: bv16, b: bv8)
    ensures Top(Index(c, b)) == ((((c >> 8) as bv8) ^ b) as bv16) << 8
  {}

  lemma XorCommutes(a: bv16, b: bv16)
    ensures a ^ b == Xor(b, a)
  {}

  lemma StepIs(c: bv16, b: bv8)
    ensures Step(Correct, c, b) == Xor(CorrectTable(Index(c, b)), c << 8)
    ensures Step(Legacy, c, b) == Xor(LegacyTable(Index(c, b)), c << 8)
  {
    hide CorrectTable, LegacyTable, Index;
    XorCommutes(c << 8, CorrectTable(Index(c, b)));
    XorCommutes(c << 8, LegacyTable(Index(c, b)));
  }

  /** A step of the table loop enters the byte and shifts eight times. */
  lemma StepIsShift(c: bv16, b: bv8)
    ensures Step(Correct, c, b) == ShiftN(8, Enter(c, b))
  {
    hide Step, CorrectTable, LegacyTable, Shift8, ShiftN, ShiftOnce, Xor, Enter, Top, Index;
    var i := Index(c, b);
    StepIs(c, b);
    TableEntryIsDivision(i);
    EnterSplits(c, b);
    ShiftNLinear(8, Top(i), c & 0x00FF);
    ShiftEightTimes(Top(i));
    ShiftEightTimes(c & 0x00FF);
    LowHalf(c);
  }

  // ---------------------------------------------------------------------------
  // Windows of at most sixteen bits
  // ---------------------------------------------------------------------------

  function Join(b: bv1, p: bv16): bv16 {
    ((b as bv16) << 15) | (p >> 1)
  }

  /** At most sixteen bits, left-aligned in a register. */
  function Pack(bits: seq<bv1>): bv16 {
    if bits == [] then 0 else Join(bits[0], Pack(bits[1..]))
  }

  predicate Within(p: bv16, mask: bv16) {
    p & mask == p
  }

  /** The mask of the n most significant bits. */
  function HighMask(n: nat): bv16 {
    if n == 0 then 0 else Join(1, HighMask(n - 1))
  }

  lemma ZeroWithin(mask: bv16)
    ensures Within(0, mask)
  {}

  lemma JoinWithin(b: bv1, p: bv16, mask: bv16)
    requires Within(p, mask)
    ensures Within(Join(b, p), Join(1, mask))
  {}

  lemma WithinTransitive(p: bv16, q: bv16, mask: bv16)
    requires Within(p, q) && Within(q, mask)
    ensures Within(p, mask)
  {}

  lemma {:induction false} HighMaskGrows(n: nat, m: nat)
    requires n <= m
    ensures Within(HighMask(n), HighMask(m))
  {
    hide Within, Join;
    if n == 0 {
      ZeroWithin(HighMask(m));
    } else {
      HighMaskGrows(n - 1, m - 1);
      JoinWithin(1, HighMask(n - 1), HighMask(m - 1));
    }
  }

  lemma {:induction false} PackWithin(bits: seq<bv1>)
    ensures Within(Pack(bits), HighMask(|bits|))
  {
    hide Within, Join;
    if bits == [] {
      ZeroWithin(HighMask(0));
    } else {
      PackWithin(bits[1..]);
      JoinWithin(bits[0], Pack(bits[1..]), HighMask(|bits| - 1));
    }
  }

  lemma HighMask15()
    ensures HighMask(15) == 0xFFFE
  {
    assert HighMask(1) == 0x8000;
    assert HighMask(2) == 0xC000;
    assert HighMask(3) == 0xE000;
    assert HighMask(4) == 0xF000;
    assert HighMask(5) == 0xF800;
    assert HighMask(6) == 0xFC00;
    assert HighMask(7) == 0xFE00;
    assert HighMask(8) == 0xFF00;
    assert HighMask(9) == 0xFF80;
    assert HighMask(10) == 0xFFC0;
    assert HighMask(11) == 0xFFE0;
    assert HighMask(12) == 0xFFF0;
    assert HighMask(13) == 0xFFF8;
    assert HighMask(14) == 0xFFFC;
  }

  predicate EvenWord(p: bv16) {
    p & 1 == 0
  }

  lemma WithinEven(p: bv16)
    requires Within(p, 0xFFFE)
    ensures EvenWord(p)
  {}

  lemma PackEven(bits: seq<bv1>)
    requires |bits| <= 15
    ensures EvenWord(Pack(bits))
  {
    hide Within, Join, EvenWord;
    PackWithin(bits);
    HighMaskGrows(|bits|, 15);
    WithinTransitive(Pack(bits), HighMask(|bits|), HighMask(15));
    HighMask15();
    WithinEven(Pack(bits));
  }

  lemma EnterBit(c: bv16, b: bv1, p: bv16)
    requires EvenWord(p)
    ensures Xor(DivideBit(c, b), p) == ShiftOnce(Xor(c, Join(b, p)))
  {}

  lemma XorZero(c: bv16)
    ensures Xor(c, 0) == c
  {}

  /** A window of at most sixteen bits may enter the register all at once, before the shifts. */
  lemma {:induction false} DivideWindow(bits: seq<bv1>, c: bv16)
    requires |bits| <= 16
    ensures Divide(bits, c) == ShiftN(|bits|, Xor(c, Pack(bits)))
  {
    hide DivideBit, ShiftOnce, EvenWord, Xor, Join;
    if bits == [] {
      XorZero(c);
    } else {
      PackEven(bits[1..]);
      EnterBit(c, bits[0], Pack(bits[1..]));
      DivideWindow(bits[1..], DivideBit(c, bits[0]));
    }
  }

  lemma JoinByte(b: bv8)
    ensures var s := BitsOf(b);
            Join(s[0], Join(s[1], Join(s[2], Join(s[3], Join(s[4], Join(s[5], Join(s[6], Join(s[7], 0)))))))) == Top(b)
  {}

  lemma PackByte(b: bv8)
    ensures Pack(BitsOf(b)) == Top(b)
  {
    JoinByte(b);
    hide Join, Top;
    var s := BitsOf(b);
    assert s[1..][1..] == s[2..] && s[2..][1..] == s[3..] && s[3..][1..] == s[4..];
    assert s[4..][1..] == s[5..] && s[5..][1..] == s[6..] && s[6..][1..] == s[7..] && s[7..][1..] == [];
    assert Pack(s[7..]) == Join(s[7], 0);
    assert Pack(s[6..]) == Join(s[6], Pack(s[7..]));
    assert Pack(s[5..]) == Join(s[5], Pack(s[6..]));
    assert Pack(s[4..]) == Join(s[4], Pack(s[5..]));
    assert Pack(s[3..]) == Join(s[3], Pack(s[4..]));
    assert Pack(s[2..]) == Join(s[2], Pack(s[3..]));
    assert Pack(s[1..]) == Join(s[1], Pack(s[2..]));
  }

  lemma {:induction false} DivideConcat(a: seq<bv1>, b: seq<bv1>, c: bv16)
    ensures Divide(a + b, c) == Divide(b, Divide(a, c))
  {
    hide DivideBit;
    if a == [] {
      assert a + b == b;
    } else {
      assert (a + b)[1..] == a[1..] + b;
      DivideConcat(a[1..], b, DivideBit(c, a[0]));
    }
  }

  /** The table loop computes the polynomial division of the message, for every initial value. */
  lemma {:induction false} TableLoopIsDivision(msg: seq<bv8>, c: bv16)
    ensures Crc(Correct, msg, c) == Divide(MessageBits(msg), c)
  {
    hide Step, BitsOf, DivideBit, Xor, Top, ShiftN, Pack;
    if msg != [] {
      StepIsShift(c, msg[0]);
      DivideWindow(BitsOf(msg[0]), c);
      PackByte(msg[0]);
      DivideConcat(BitsOf(msg[0]), MessageBits(msg[1..]), c);
      TableLoopIsDivision(msg[1..], Step(Correct, c, msg[0]));
    }
  }

  // ---------------------------------------------------------------------------
  // Algebra of the correct dialect
  // ---------------------------------------------------------------------------

  function XorMessages(x: seq<bv8>, y: seq<bv8>): (r: seq<bv8>)
    requires |x| == |y|
    ensures |r| == |x|
  {
    seq(|x|, k requires 0 <= k < |x| => x[k] ^ y[k])
  }

  lemma EnterLinear(a: bv16, b: bv16, u: bv8, v: bv8)
    ensures Enter(Xor(a, b), u ^ v) == Xor(Enter(a, u), Enter(b, v))
  {}

  /** Affine: the xor of messages and of initial values gives the xor of the checksums. */
  lemma {:induction false} CrcAffine(x: seq<bv8>, y: seq<bv8>, a: bv16, b: bv16)
    requires |x| == |y|
    ensures Crc(Correct, XorMessages(x, y), Xor(a, b)) == Xor(Crc(Correct, x, a), Crc(Correct, y, b))
  {
    hide Step, Xor, Enter, ShiftN;
    if x != [] {
      var z := XorMessages(x, y);
      StepIsShift(a, x[0]);
      StepIsShift(b, y[0]);
      StepIsShift(Xor(a, b), z[0]);
      EnterLinear(a, b, x[0], y[0]);
      ShiftNLinear(8, Enter(a, x[0]), Enter(b, y[0]));
      assert z[1..] == XorMessages(x[1..], y[1..]);
      CrcAffine(x[1..], y[1..], Step(Correct, a, x[0]), Step(Correct, b, y[0]));
    }
  }

  lemma ShiftOnceInjective(a: bv16, b: bv16)
    requires ShiftOnce(a) == ShiftOnce(b)
    ensures a == b
  {}

  lemma {:induction false} ShiftNInjective(n: nat, a: bv16, b: bv16)
    requires ShiftN(n, a) == ShiftN(n, b)
    ensures a == b
  {
    hide ShiftOnce;
    if n != 0 {
      ShiftNInjective(n - 1, ShiftOnce(a), ShiftOnce(b));
      ShiftOnceInjective(a, b);
    }
  }

  lemma EnterInjective(c: bv16, c': bv16, b: bv8, b': bv8)
    requires Enter(c, b) == Enter(c', b') && (b == b' || c == c')
    ensures c == c' && b == b'
  {}

  /** Every step is injective on the register for each message byte, and on the byte for each register. */
  lemma StepInjective(c: bv16, c': bv16, b: bv8, b': bv8)
    requires Step(Correct, c, b) == Step(Correct, c', b') && (b == b' || c == c')
    ensures c == c' && b == b'
  {
    hide Step, ShiftN, Enter;
    StepIsShift(c, b);
    StepIsShift(c', b');
    ShiftNInjective(8, Enter(c, b), Enter(c', b'));
    EnterInjective(c, c', b, b');
  }

  lemma StepFromIndex(c: bv16, j: bv8, t: bv16)
    requires Index(c, 0) == j && Xor(CorrectTable(j), c << 8) == t
    ensures Step(Correct, c, 0) == t
  {
    StepIs(c, 0);
    hide *;
  }

  /** A register with top byte j, chosen so that its shift turns the entry u into t. */
  function Aligned(t: bv16, u: bv16, j: bv8): bv16 {
    Top(j) | ((t ^ u) >> 8)
  }

  lemma AlignedIndex(t: bv16, u: bv16, j: bv8)
    requires t & 0x00FF == u & 0x00FF
    ensures var c := Aligned(t, u, j); Index(c, 0) == j && Xor(u, c << 8) == t && (c >> 8) as bv8 == j
  {
    hide CorrectTable, LegacyTable;
  }

  /**
   * The low bytes of the 256 entries are distinct, so they are a permutation of the bytes; this is
   * what lets a step be undone.
   */
  lemma LowBytePermutation(i: bv8, j: bv8)
    requires CorrectTable(i) & 0x00FF == CorrectTable(j) & 0x00FF
    ensures i == j
  {
    hide CorrectTable, Step, Aligned, Index, Xor;
    var t, u := CorrectTable(i), CorrectTable(j);
    AlignedIndex(t, t, i);
    StepFromIndex(Aligned(t, t, i), i, t);
    AlignedIndex(t, u, j);
    StepFromIndex(Aligned(t, u, j), j, t);
    StepInjective(Aligned(t, t, i), Aligned(t, u, j), 0, 0);
  }

  // ---------------------------------------------------------------------------
  // Error detection of the correct dialect
  // ---------------------------------------------------------------------------

  lemma DivideBitInjective(c: bv16, c': bv16, b: bv1)
    requires DivideBit(c, b) == DivideBit(c', b)
    ensures c == c'
  {}

  lemma {:induction false} DivideInjective(bits: seq<bv1>, c: bv16, c': bv16)
    requires Divide(bits, c) == Divide(bits, c')
    ensures c == c'
  {
    hide DivideBit;
    if bits != [] {
      DivideInjective(bits[1..], DivideBit(c, bits[0]), DivideBit(c', bits[0]));
      DivideBitInjective(c, c', bits[0]);
    }
  }

  lemma JoinInjective(a: bv1, b: bv1, p: bv16, q: bv16)
    requires EvenWord(p) && EvenWord(q) && Join(a, p) == Join(b, q)
    ensures a == b && p == q
  {}

  lemma {:induction false} PackInjective(u: seq<bv1>, v: seq<bv1>)
    requires |u| == |v| <= 16 && Pack(u) == Pack(v)
    ensures u == v
  {
    hide Join, EvenWord;
    if u != [] {
      PackEven(u[1..]);
      PackEven(v[1..]);
      JoinInjective(u[0], v[0], Pack(u[1..]), Pack(v[1..]));
      PackInjective(u[1..], v[1..]);
      assert u == [u[0]] + u[1..] && v == [v[0]] + v[1..];
    }
  }

  lemma XorCancels(c: bv16, p: bv16, q: bv16)
    requires Xor(c, p) == Xor(c, q)
    ensures p == q
  {}

  /** A non-zero error inside at most sixteen consecutive bits changes the register for good. */
  lemma BurstChangesRegister(pre: seq<bv1>, u: seq<bv1>, v: seq<bv1>, post: seq<bv1>, c: bv16)
    requires |u| == |v| <= 16 && u != v
    ensures Divide(pre + u + post, c) != Divide(pre + v + post, c)
  {
    hide Divide, Xor, Pack, ShiftN;
    DivideConcat(pre + u, post, c);
    DivideConcat(pre + v, post, c);
    DivideConcat(pre, u, c);
    DivideConcat(pre, v, c);
    var d := Divide(pre, c);
    if Divide(pre + u + post, c) == Divide(pre + v + post, c) {
      DivideInjective(post, Divide(u, d), Divide(v, d));
      DivideWindow(u, d);
      DivideWindow(v, d);
      ShiftNInjective(|u|, Xor(d, Pack(u)), Xor(d, Pack(v)));
      XorCancels(d, Pack(u), Pack(v));
      PackInjective(u, v);
    }
  }

  lemma {:induction false} MessageBitsInjective(x: seq<bv8>, y: seq<bv8>)
    requires MessageBits(x) == MessageBits(y)
    ensures x == y
  {
    hide BitsOf, Pack, Top, Enter;
    if x != [] {
      assert |x| == |y|;
      assert MessageBits(x)[..8] == BitsOf(x[0]) && MessageBits(x)[8..] == MessageBits(x[1..]);
      assert MessageBits(y)[..8] == BitsOf(y[0]) && MessageBits(y)[8..] == MessageBits(y[1..]);
      PackByte(x[0]);
      PackByte(y[0]);
      TopInjective(x[0], y[0]);
      MessageBitsInjective(x[1..], y[1..]);
      assert x == [x[0]] + x[1..] && y == [y[0]] + y[1..];
    }
  }

  lemma TopInjective(b: bv8, b': bv8)
    requires Top(b) == Top(b')
    ensures b == b'
  {}

  /** Bits k of the two messages agree unless `from <= k < from + 16`. */
  ghost predicate AgreeOutsideBurst(x: seq<bv8>, y: seq<bv8>, from: nat)
    requires |x| == |y|
  {
    forall k :: 0 <= k < 8 * |x| && (k < from || from + 16 <= k) ==> MessageBits(x)[k] == MessageBits(y)[k]
  }

  /**
   * Every burst of at most sixteen bits is detected: messages of one length that differ, but only
   * inside sixteen consecutive bits, never share their checksum.
   */
  lemma BurstDetected(x: seq<bv8>, y: seq<bv8>, from: nat, c: bv16)
    requires |x| == |y| && x != y && AgreeOutsideBurst(x, y, from)
    ensures Crc(Correct, x, c) != Crc(Correct, y, c)
  {
    hide Crc, Divide, MessageBits;
    var p, q := MessageBits(x), MessageBits(y);
    if p == q {
      MessageBitsInjective(x, y);
    }
    var lo := if from < |p| then from else |p|;
    var hi := if lo + 16 < |p| then lo + 16 else |p|;
    assert p == p[..lo] + p[lo..hi] + p[hi..];
    assert q == p[..lo] + q[lo..hi] + p[hi..];
    BurstChangesRegister(p[..lo], p[lo..hi], q[lo..hi], p[hi..], c);
    TableLoopIsDivision(x, c);
    TableLoopIsDivision(y, c);
  }

  lemma {:induction false} MessageBitsConcat(x: seq<bv8>, y: seq<bv8>)
    ensures MessageBits(x + y) == MessageBits(x) + MessageBits(y)
  {
    hide BitsOf;
    if x == [] {
      assert x + y == y;
    } else {
      assert (x + y)[1..] == x[1..] + y;
      MessageBitsConcat(x[1..], y);
    }
  }

  /** Errors inside two adjacent bytes, at any position and with any common suffix, are detected. */
  lemma AdjacentBytesDetected(pre: seq<bv8>, u: seq<bv8>, v: seq<bv8>, post: seq<bv8>, c: bv16)
    requires |u| == |v| <= 2 && u != v
    ensures Crc(Correct, pre + u + post, c) != Crc(Correct, pre + v + post, c)
  {
    hide Crc, MessageBits, Divide;
    MessageBitsConcat(pre + u, post);
    MessageBitsConcat(pre + v, post);
    MessageBitsConcat(pre, u);
    MessageBitsConcat(pre, v);
    if MessageBits(u) == MessageBits(v) {
      MessageBitsInjective(u, v);
    }
    TableLoopIsDivision(pre + u + post, c);
    TableLoopIsDivision(pre + v + post, c);
    BurstChangesRegister(MessageBits(pre), MessageBits(u), MessageBits(v), MessageBits(post), c);
  }

  function LowBit(c: bv16): bv1 {
    (c & 1) as bv1
  }

  function NibbleParity(c: bv16): bv1 {
    LowBit(c) ^ LowBit(c >> 1) ^ LowBit(c >> 2) ^ LowBit(c >> 3)
  }

  /** The exclusive-or of all bits of a register. */
  function RegisterParity(c: bv16): bv1 {
    NibbleParity(c) ^ NibbleParity(c >> 4) ^ NibbleParity(c >> 8) ^ NibbleParity(c >> 12)
  }

  function Parity(bits: seq<bv1>): bv1 {
    if bits == [] then 0 else bits[0] ^ Parity(bits[1..])
  }

  lemma ShiftedNibble0(c: bv16)
    ensures NibbleParity(ShiftOnce(c)) == NibbleParity(c) ^ LowBit(c >> 3) ^ LowBit(c >> 15)
  {}

  lemma ShiftedNibble1(c: bv16)
    ensures NibbleParity(ShiftOnce(c) >> 4) == NibbleParity(c >> 4) ^ LowBit(c >> 3) ^ LowBit(c >> 7) ^ LowBit(c >> 15)
  {}

  lemma ShiftedNibble2(c: bv16)
    ensures NibbleParity(ShiftOnce(c) >> 8) == NibbleParity(c >> 8) ^ LowBit(c >> 7) ^ LowBit(c >> 11)
  {}

  lemma ShiftedNibble3(c: bv16)
    ensures NibbleParity(ShiftOnce(c) >> 12) == NibbleParity(c >> 12) ^ LowBit(c >> 11)
  {}

  lemma CarriesCancel(p0: bv1, p1: bv1, p2: bv1, p3: bv1, x: bv1, y: bv1, z: bv1, t: bv1)
    ensures (p0 ^ x ^ t) ^ (p1 ^ x ^ y ^ t) ^ (p2 ^ y ^ z) ^ (p3 ^ z) == p0 ^ p1 ^ p2 ^ p3
  {}

  /** The generator has an even number of terms, so a shift keeps the parity of the register. */
  lemma ShiftKeepsParity(c: bv16)
    ensures RegisterParity(ShiftOnce(c)) == RegisterParity(c)
  {
    hide NibbleParity, ShiftOnce, LowBit;
    ShiftedNibble0(c);
    ShiftedNibble1(c);
    ShiftedNibble2(c);
    ShiftedNibble3(c);
    CarriesCancel(NibbleParity(c), NibbleParity(c >> 4), NibbleParity(c >> 8), NibbleParity(c >> 12),
                  LowBit(c >> 3), LowBit(c >> 7), LowBit(c >> 11), LowBit(c >> 15));
  }

  lemma EnteredNibbles(c: bv16, b: bv1)
    ensures var d := c ^ ((b as bv16) << 15);
            && NibbleParity(d) == NibbleParity(c)
            && NibbleParity(d >> 4) == NibbleParity(c >> 4)
            && NibbleParity(d >> 8) == NibbleParity(c >> 8)
  {}

  lemma EnteredTopNibble(c: bv16, b: bv1)
    ensures NibbleParity((c ^ ((b as bv16) << 15)) >> 12) == NibbleParity(c >> 12) ^ b
  {}

  lemma Xor3(a: bv1, b: bv1, c: bv1)
    ensures a ^ (b ^ c) == (a ^ b) ^ c
  {}

  lemma DivideBitParity(c: bv16, b: bv1)
    ensures RegisterParity(DivideBit(c, b)) == RegisterParity(c) ^ b
  {
    hide ShiftOnce, NibbleParity;
    EnteredNibbles(c, b);
    EnteredTopNibble(c, b);
    ShiftKeepsParity(c ^ ((b as bv16) << 15));
    Xor3(NibbleParity(c) ^ NibbleParity(c >> 4) ^ NibbleParity(c >> 8), NibbleParity(c >> 12), b);
  }

  lemma {:induction false} DivideKeepsParity(bits: seq<bv1>, c: bv16)
    ensures RegisterParity(Divide(bits, c)) == RegisterParity(c) ^ Parity(bits)
  {
    hide DivideBit, RegisterParity;
    if bits != [] {
      DivideBitParity(c, bits[0]);
      DivideKeepsParity(bits[1..], DivideBit(c, bits[0]));
      Xor3(RegisterParity(c), bits[0], Parity(bits[1..]));
    }
  }

  /** Any odd number of flipped bits is detected, at whatever positions and for whatever lengths. */
  lemma OddErrorsDetected(x: seq<bv8>, y: seq<bv8>, c: bv16)
    requires Parity(MessageBits(x)) != Parity(MessageBits(y))
    ensures Crc(Correct, x, c) != Crc(Correct, y, c)
  {
    hide Crc, RegisterParity, Parity, MessageBits, Divide;
    TableLoopIsDivision(x, c);
    TableLoopIsDivision(y, c);
    DivideKeepsParity(MessageBits(x), c);
    DivideKeepsParity(MessageBits(y), c);
  }

  // ---------------------------------------------------------------------------
  // The legacy dialect
  // ---------------------------------------------------------------------------

  /** What the corruption added to an entry. */
  function Corruption(i: bv8): bv16 {
    var j := i & 7;
    match i >> 3
    case 8 => Pick(j, 0x00A0, 0x00A0, 0x00A0, 0x00A0, 0x00A0, 0x00A0, 0x00A0, 0x00E0)
    case 9 => 0x00E0
    case 10 => 0x00E0
    case 11 => 0x00E0
    case 26 => Pick(j, 0, 0, 0, 0, 0, 0, 0, 0x0020)
    case 27 => 0x0020
    case 28 => Pick(j, 0x0020, 0x0020, 0x0020, 0x0020, 0x0020, 0, 0, 0)
    case _ => 0
  }

  predicate Corrupted(i: bv8) {
    0x40 <= i <= 0x5F || 0xD7 <= i <= 0xE4
  }

  lemma CorruptionRange(i: bv8)
    ensures Corruption(i) != 0 <==> Corrupted(i)
  {}

  lemma LegacyBlock0(i: bv8)
    requires i >> 5 == 0
    ensures LegacyTable(i) == Shift8(Top(i)) ^ Corruption(i)
  {}

  lemma LegacyBlock1(i: bv8)
    requires i >> 5 == 1
    ensures LegacyTable(i) == Shift8(Top(i)) ^ Corruption(i)
  {}

  lemma LegacyBlock2(i: bv8)
    requires i >> 5 == 2
    ensures LegacyTable(i) == Shift8(Top(i)) ^ Corruption(i)
  {}

  lemma LegacyBlock3(i: bv8)
    requires i >> 5 == 3
    ensures LegacyTable(i) == Shift8(Top(i)) ^ Corruption(i)
  {}

  lemma LegacyBlock4(i: bv8)
    requires i >> 5 == 4
    ensures LegacyTable(i) == Shift8(Top(i)) ^ Corruption(i)
  {}

  lemma LegacyBlock5(i: bv8)
    requires i >> 5 == 5
    ensures LegacyTable(i) == Shift8(Top(i)) ^ Corruption(i)
  {}

  lemma LegacyBlock6(i: bv8)
    requires i >> 5 == 6
    ensures LegacyTable(i) == Shift8(Top(i)) ^ Corruption(i)
  {}

  lemma LegacyBlock7(i: bv8)
    requires i >> 5 == 7
    ensures LegacyTable(i) == Shift8(Top(i)) ^ Corruption(i)
  {}

  lemma LegacyEntry(i: bv8)
    ensures LegacyTable(i) == Shift8(Top(i)) ^ Corruption(i)
  {
    hide LegacyTable, Shift8, Corruption;
    if i >> 5 == 0 {
      LegacyBlock0(i);
    } else if i >> 5 == 1 {
      LegacyBlock1(i);
    } else if i >> 5 == 2 {
      LegacyBlock2(i);
    } else if i >> 5 == 3 {
      LegacyBlock3(i);
    } else if i >> 5 == 4 {
      LegacyBlock4(i);
    } else if i >> 5 == 5 {
      LegacyBlock5(i);
    } else if i >> 5 == 6 {
      LegacyBlock6(i);
    } else {
      LegacyBlock7(i);
    }
  }

  lemma XorChanges(a: bv16, d: bv16)
    ensures a ^ d == a <==> d == 0
  {}

  /** The two tables differ exactly at the 46 entries 0x40-0x5F and 0xD7-0xE4. */
  lemma LegacyDiffersExactly(i: bv8)
    ensures LegacyTable(i) != CorrectTable(i) <==> Corrupted(i)
  {
    hide LegacyTable, CorrectTable, Shift8, Corruption;
    LegacyEntry(i);
    TableEntryIsDivision(i);
    XorChanges(Shift8(Top(i)), Corruption(i));
    CorruptionRange(i);
  }

  lemma XorTablesDiffer(t: bv16, t': bv16, a: bv16)
    ensures Xor(t, a) == Xor(t', a) <==> t == t'
  {}

  /** One step tells the dialects apart exactly when it reads a corrupted entry. */
  lemma StepsAgreeExactly(c: bv16, b: bv8)
    ensures Step(Legacy, c, b) == Step(Correct, c, b) <==> !Corrupted(Index(c, b))
  {
    hide Step, CorrectTable, LegacyTable, Index, Corrupted, Xor;
    var i := Index(c, b);
    StepIs(c, b);
    LegacyDiffersExactly(i);
    XorTablesDiffer(LegacyTable(i), CorrectTable(i), c << 8);
  }

  /** No step of the correct dialect over this message reads a corrupted entry. */
  predicate AvoidsCorruption(msg: seq<bv8>, c: bv16) {
    msg == [] || (!Corrupted(Index(c, msg[0])) && AvoidsCorruption(msg[1..], Step(Correct, c, msg[0])))
  }

  /** Messages that avoid the corrupted entries have one checksum, whatever the dialect. */
  lemma {:induction false} DialectsAgree(msg: seq<bv8>, c: bv16)
    requires AvoidsCorruption(msg, c)
    ensures Crc(Legacy, msg, c) == Crc(Correct, msg, c)
  {
    hide Step, Corrupted, Index;
    if msg != [] {
      StepsAgreeExactly(c, msg[0]);
      DialectsAgree(msg[1..], Step(Correct, c, msg[0]));
    }
  }

  /** In the legacy table 0x40 and 0xEA share their low byte, so a legacy step cannot be undone. */
  lemma LegacyStepNotInjective()
    ensures LegacyTable(0x40) & 0x00FF == LegacyTable(0xEA) & 0x00FF
    ensures Step(Legacy, 0x4000, 0) == Step(Legacy, 0xEA14, 0)
  {
    hide CorrectTable;
  }
}
