/** The checksum of network frames: by table, and bit by bit. */
module Crc {

  /** A 32-bit register as its four bytes, highest first. */
  datatype Word = W(a: bv8, b: bv8, c: bv8, d: bv8)

  function Plus(x: bv8, y: bv8): bv8 { x ^ y }

  function Xor(x: Word, y: Word): Word { W(x.a ^ y.a, x.b ^ y.b, x.c ^ y.c, x.d ^ y.d) }

  const POLYNOMIAL := W(0xED, 0xB8, 0x83, 0x20)   // section 3.2.9 of IEEE 802.3-2018, reflected
  const ONES := W(0xFF, 0xFF, 0xFF, 0xFF)

  // ----- bit by bit -----

  function Shifted(r: Word): Word {
    W(r.a >> 1, (r.b >> 1) | (r.a << 7), (r.c >> 1) | (r.b << 7), (r.d >> 1) | (r.c << 7))
  }

  /** One bit goes out of the register. */
  function Step(r: Word): Word { if r.d & 1 == 1 then Xor(Shifted(r), POLYNOMIAL) else Shifted(r) }

  function Step2(r: Word): Word { Step(Step(r)) }

  function Step4(r: Word): Word { Step2(Step2(r)) }

  function Step8(r: Word): Word { Step4(Step4(r)) }

  /** The register after one more byte. */
  function Feed(r: Word, x: bv8): Word { Step8(W(r.a, r.b, r.c, r.d ^ x)) }

  /** The register after a message, starting from `r`. */
  function Register(r: Word, bytes: seq<bv8>): Word {
    if bytes == [] then r else Feed(Register(r, bytes[..|bytes|-1]), bytes[|bytes|-1])
  }

  function Checksum(bytes: seq<bv8>): Word { Xor(Register(ONES, bytes), ONES) }

  // ----- the table, in rows of sixteen -----

  const ROW0: seq<Word> := [
    W(0x00, 0x00, 0x00, 0x00), W(0x77, 0x07, 0x30, 0x96), W(0xEE, 0x0E, 0x61, 0x2C), W(0x99, 0x09, 0x51, 0xBA),
    W(0x07, 0x6D, 0xC4, 0x19), W(0x70, 0x6A, 0xF4, 0x8F), W(0xE9, 0x63, 0xA5, 0x35), W(0x9E, 0x64, 0x95, 0xA3),
    W(0x0E, 0xDB, 0x88, 0x32), W(0x79, 0xDC, 0xB8, 0xA4), W(0xE0, 0xD5, 0xE9, 0x1E), W(0x97, 0xD2, 0xD9, 0x88),
    W(0x09, 0xB6, 0x4C, 0x2B), W(0x7E, 0xB1, 0x7C, 0xBD), W(0xE7, 0xB8, 0x2D, 0x07), W(0x90, 0xBF, 0x1D, 0x91)
  ]

  const ROW1: seq<Word> := [
    W(0x1D, 0xB7, 0x10, 0x64), W(0x6A, 0xB0, 0x20, 0xF2), W(0xF3, 0xB9, 0x71, 0x48), W(0x84, 0xBE, 0x41, 0xDE),
    W(0x1A, 0xDA, 0xD4, 0x7D), W(0x6D, 0xDD, 0xE4, 0xEB), W(0xF4, 0xD4, 0xB5, 0x51), W(0x83, 0xD3, 0x85, 0xC7),
    W(0x13, 0x6C, 0x98, 0x56), W(0x64, 0x6B, 0xA8, 0xC0), W(0xFD, 0x62, 0xF9, 0x7A), W(0x8A, 0x65, 0xC9, 0xEC),
    W(0x14, 0x01, 0x5C, 0x4F), W(0x63, 0x06, 0x6C, 0xD9), W(0xFA, 0x0F, 0x3D, 0x63), W(0x8D, 0x08, 0x0D, 0xF5)
  ]

  const ROW2: seq<Word> := [
    W(0x3B, 0x6E, 0x20, 0xC8), W(0x4C, 0x69, 0x10, 0x5E), W(0xD5, 0x60, 0x41, 0xE4), W(0xA2, 0x67, 0x71, 0x72),
    W(0x3C, 0x03, 0xE4, 0xD1), W(0x4B, 0x04, 0xD4, 0x47), W(0xD2, 0x0D, 0x85, 0xFD), W(0xA5, 0x0A, 0xB5, 0x6B),
    W(0x35, 0xB5, 0xA8, 0xFA), W(0x42, 0xB2, 0x98, 0x6C), W(0xDB, 0xBB, 0xC9, 0xD6), W(0xAC, 0xBC, 0xF9, 0x40),
    W(0x32, 0xD8, 0x6C, 0xE3), W(0x45, 0xDF, 0x5C, 0x75), W(0xDC, 0xD6, 0x0D, 0xCF), W(0xAB, 0xD1, 0x3D, 0x59)
  ]

  const ROW3: seq<Word> := [
    W(0x26, 0xD9, 0x30, 0xAC), W(0x51, 0xDE, 0x00, 0x3A), W(0xC8, 0xD7, 0x51, 0x80), W(0xBF, 0xD0, 0x61, 0x16),
    W(0x21, 0xB4, 0xF4, 0xB5), W(0x56, 0xB3, 0xC4, 0x23), W(0xCF, 0xBA, 0x95, 0x99), W(0xB8, 0xBD, 0xA5, 0x0F),
    W(0x28, 0x02, 0xB8, 0x9E), W(0x5F, 0x05, 0x88, 0x08), W(0xC6, 0x0C, 0xD9, 0xB2), W(0xB1, 0x0B, 0xE9, 0x24),
    W(0x2F, 0x6F, 0x7C, 0x87), W(0x58, 0x68, 0x4C, 0x11), W(0xC1, 0x61, 0x1D, 0xAB), W(0xB6, 0x66, 0x2D, 0x3D)
  ]

  const ROW4: seq<Word> := [
    W(0x76, 0xDC, 0x41, 0x90), W(0x01, 0xDB, 0x71, 0x06), W(0x98, 0xD2, 0x20, 0xBC), W(0xEF, 0xD5, 0x10, 0x2A),
    W(0x71, 0xB1, 0x85, 0x89), W(0x06, 0xB6, 0xB5, 0x1F), W(0x9F, 0xBF, 0xE4, 0xA5), W(0xE8, 0xB8, 0xD4, 0x33),
    W(0x78, 0x07, 0xC9, 0xA2), W(0x0F, 0x00, 0xF9, 0x34), W(0x96, 0x09, 0xA8, 0x8E), W(0xE1, 0x0E, 0x98, 0x18),
    W(0x7F, 0x6A, 0x0D, 0xBB), W(0x08, 0x6D, 0x3D, 0x2D), W(0x91, 0x64, 0x6C, 0x97), W(0xE6, 0x63, 0x5C, 0x01)
  ]

  const ROW5: seq<Word> := [
    W(0x6B, 0x6B, 0x51, 0xF4), W(0x1C, 0x6C, 0x61, 0x62), W(0x85, 0x65, 0x30, 0xD8), W(0xF2, 0x62, 0x00, 0x4E),
    W(0x6C, 0x06, 0x95, 0xED), W(0x1B, 0x01, 0xA5, 0x7B), W(0x82, 0x08, 0xF4, 0xC1), W(0xF5, 0x0F, 0xC4, 0x57),
    W(0x65, 0xB0, 0xD9, 0xC6), W(0x12, 0xB7, 0xE9, 0x50), W(0x8B, 0xBE, 0xB8, 0xEA), W(0xFC, 0xB9, 0x88, 0x7C),
    W(0x62, 0xDD, 0x1D, 0xDF), W(0x15, 0xDA, 0x2D, 0x49), W(0x8C, 0xD3, 0x7C, 0xF3), W(0xFB, 0xD4, 0x4C, 0x65)
  ]

  const ROW6: seq<Word> := [
    W(0x4D, 0xB2, 0x61, 0x58), W(0x3A, 0xB5, 0x51, 0xCE), W(0xA3, 0xBC, 0x00, 0x74), W(0xD4, 0xBB, 0x30, 0xE2),
    W(0x4A, 0xDF, 0xA5, 0x41), W(0x3D, 0xD8, 0x95, 0xD7), W(0xA4, 0xD1, 0xC4, 0x6D), W(0xD3, 0xD6, 0xF4, 0xFB),
    W(0x43, 0x69, 0xE9, 0x6A), W(0x34, 0x6E, 0xD9, 0xFC), W(0xAD, 0x67, 0x88, 0x46), W(0xDA, 0x60, 0xB8, 0xD0),
    W(0x44, 0x04, 0x2D, 0x73), W(0x33, 0x03, 0x1D, 0xE5), W(0xAA, 0x0A, 0x4C, 0x5F), W(0xDD, 0x0D, 0x7C, 0xC9)
  ]

  const ROW7: seq<Word> := [
    W(0x50, 0x05, 0x71, 0x3C), W(0x27, 0x02, 0x41, 0xAA), W(0xBE, 0x0B, 0x10, 0x10), W(0xC9, 0x0C, 0x20, 0x86),
    W(0x57, 0x68, 0xB5, 0x25), W(0x20, 0x6F, 0x85, 0xB3), W(0xB9, 0x66, 0xD4, 0x09), W(0xCE, 0x61, 0xE4, 0x9F),
    W(0x5E, 0xDE, 0xF9, 0x0E), W(0x29, 0xD9, 0xC9, 0x98), W(0xB0, 0xD0, 0x98, 0x22), W(0xC7, 0xD7, 0xA8, 0xB4),
    W(0x59, 0xB3, 0x3D, 0x17), W(0x2E, 0xB4, 0x0D, 0x81), W(0xB7, 0xBD, 0x5C, 0x3B), W(0xC0, 0xBA, 0x6C, 0xAD)
  ]

  const ROW8: seq<Word> := [
    W(0xED, 0xB8, 0x83, 0x20), W(0x9A, 0xBF, 0xB3, 0xB6), W(0x03, 0xB6, 0xE2, 0x0C), W(0x74, 0xB1, 0xD2, 0x9A),
    W(0xEA, 0xD5, 0x47, 0x39), W(0x9D, 0xD2, 0x77, 0xAF), W(0x04, 0xDB, 0x26, 0x15), W(0x73, 0xDC, 0x16, 0x83),
    W(0xE3, 0x63, 0x0B, 0x12), W(0x94, 0x64, 0x3B, 0x84), W(0x0D, 0x6D, 0x6A, 0x3E), W(0x7A, 0x6A, 0x5A, 0xA8),
    W(0xE4, 0x0E, 0xCF, 0x0B), W(0x93, 0x09, 0xFF, 0x9D), W(0x0A, 0x00, 0xAE, 0x27), W(0x7D, 0x07, 0x9E, 0xB1)
  ]

  const ROW9: seq<Word> := [
    W(0xF0, 0x0F, 0x93, 0x44), W(0x87, 0x08, 0xA3, 0xD2), W(0x1E, 0x01, 0xF2, 0x68), W(0x69, 0x06, 0xC2, 0xFE),
    W(0xF7, 0x62, 0x57, 0x5D), W(0x80, 0x65, 0x67, 0xCB), W(0x19, 0x6C, 0x36, 0x71), W(0x6E, 0x6B, 0x06, 0xE7),
    W(0xFE, 0xD4, 0x1B, 0x76), W(0x89, 0xD3, 0x2B, 0xE0), W(0x10, 0xDA, 0x7A, 0x5A), W(0x67, 0xDD, 0x4A, 0xCC),
    W(0xF9, 0xB9, 0xDF, 0x6F), W(0x8E, 0xBE, 0xEF, 0xF9), W(0x17, 0xB7, 0xBE, 0x43), W(0x60, 0xB0, 0x8E, 0xD5)
  ]

  const ROWA: seq<Word> := [
    W(0xD6, 0xD6, 0xA3, 0xE8), W(0xA1, 0xD1, 0x93, 0x7E), W(0x38, 0xD8, 0xC2, 0xC4), W(0x4F, 0xDF, 0xF2, 0x52),
    W(0xD1, 0xBB, 0x67, 0xF1), W(0xA6, 0xBC, 0x57, 0x67), W(0x3F, 0xB5, 0x06, 0xDD), W(0x48, 0xB2, 0x36, 0x4B),
    W(0xD8, 0x0D, 0x2B, 0xDA), W(0xAF, 0x0A, 0x1B, 0x4C), W(0x36, 0x03, 0x4A, 0xF6), W(0x41, 0x04, 0x7A, 0x60),
    W(0xDF, 0x60, 0xEF, 0xC3), W(0xA8, 0x67, 0xDF, 0x55), W(0x31, 0x6E, 0x8E, 0xEF), W(0x46, 0x69, 0xBE, 0x79)
  ]

  const ROWB: seq<Word> := [
    W(0xCB, 0x61, 0xB3, 0x8C), W(0xBC, 0x66, 0x83, 0x1A), W(0x25, 0x6F, 0xD2, 0xA0), W(0x52, 0x68, 0xE2, 0x36),
    W(0xCC, 0x0C, 0x77, 0x95), W(0xBB, 0x0B, 0x47, 0x03), W(0x22, 0x02, 0x16, 0xB9), W(0x55, 0x05, 0x26, 0x2F),
    W(0xC5, 0xBA, 0x3B, 0xBE), W(0xB2, 0xBD, 0x0B, 0x28), W(0x2B, 0xB4, 0x5A, 0x92), W(0x5C, 0xB3, 0x6A, 0x04),
    W(0xC2, 0xD7, 0xFF, 0xA7), W(0xB5, 0xD0, 0xCF, 0x31), W(0x2C, 0xD9, 0x9E, 0x8B), W(0x5B, 0xDE, 0xAE, 0x1D)
  ]

  const ROWC: seq<Word> := [
    W(0x9B, 0x64, 0xC2, 0xB0), W(0xEC, 0x63, 0xF2, 0x26), W(0x75, 0x6A, 0xA3, 0x9C), W(0x02, 0x6D, 0x93, 0x0A),
    W(0x9C, 0x09, 0x06, 0xA9), W(0xEB, 0x0E, 0x36, 0x3F), W(0x72, 0x07, 0x67, 0x85), W(0x05, 0x00, 0x57, 0x13),
    W(0x95, 0xBF, 0x4A, 0x82), W(0xE2, 0xB8, 0x7A, 0x14), W(0x7B, 0xB1, 0x2B, 0xAE), W(0x0C, 0xB6, 0x1B, 0x38),
    W(0x92, 0xD2, 0x8E, 0x9B), W(0xE5, 0xD5, 0xBE, 0x0D), W(0x7C, 0xDC, 0xEF, 0xB7), W(0x0B, 0xDB, 0xDF, 0x21)
  ]

  const ROWD: seq<Word> := [
    W(0x86, 0xD3, 0xD2, 0xD4), W(0xF1, 0xD4, 0xE2, 0x42), W(0x68, 0xDD, 0xB3, 0xF8), W(0x1F, 0xDA, 0x83, 0x6E),
    W(0x81, 0xBE, 0x16, 0xCD), W(0xF6, 0xB9, 0x26, 0x5B), W(0x6F, 0xB0, 0x77, 0xE1), W(0x18, 0xB7, 0x47, 0x77),
    W(0x88, 0x08, 0x5A, 0xE6), W(0xFF, 0x0F, 0x6A, 0x70), W(0x66, 0x06, 0x3B, 0xCA), W(0x11, 0x01, 0x0B, 0x5C),
    W(0x8F, 0x65, 0x9E, 0xFF), W(0xF8, 0x62, 0xAE, 0x69), W(0x61, 0x6B, 0xFF, 0xD3), W(0x16, 0x6C, 0xCF, 0x45)
  ]

  const ROWE: seq<Word> := [
    W(0xA0, 0x0A, 0xE2, 0x78), W(0xD7, 0x0D, 0xD2, 0xEE), W(0x4E, 0x04, 0x83, 0x54), W(0x39, 0x03, 0xB3, 0xC2),
    W(0xA7, 0x67, 0x26, 0x61), W(0xD0, 0x60, 0x16, 0xF7), W(0x49, 0x69, 0x47, 0x4D), W(0x3E, 0x6E, 0x77, 0xDB),
    W(0xAE, 0xD1, 0x6A, 0x4A), W(0xD9, 0xD6, 0x5A, 0xDC), W(0x40, 0xDF, 0x0B, 0x66), W(0x37, 0xD8, 0x3B, 0xF0),
    W(0xA9, 0xBC, 0xAE, 0x53), W(0xDE, 0xBB, 0x9E, 0xC5), W(0x47, 0xB2, 0xCF, 0x7F), W(0x30, 0xB5, 0xFF, 0xE9)
  ]

  const ROWF: seq<Word> := [
    W(0xBD, 0xBD, 0xF2, 0x1C), W(0xCA, 0xBA, 0xC2, 0x8A), W(0x53, 0xB3, 0x93, 0x30), W(0x24, 0xB4, 0xA3, 0xA6),
    W(0xBA, 0xD0, 0x36, 0x05), W(0xCD, 0xD7, 0x06, 0x93), W(0x54, 0xDE, 0x57, 0x29), W(0x23, 0xD9, 0x67, 0xBF),
    W(0xB3, 0x66, 0x7A, 0x2E), W(0xC4, 0x61, 0x4A, 0xB8), W(0x5D, 0x68, 0x1B, 0x02), W(0x2A, 0x6F, 0x2B, 0x94),
    W(0xB4, 0x0B, 0xBE, 0x37), W(0xC3, 0x0C, 0x8E, 0xA1), W(0x5A, 0x05, 0xDF, 0x1B), W(0x2D, 0x02, 0xEF, 0x8D)
  ]

  function Row0(): (row: seq<Word>) ensures |row| == 16 { ROW0 }

  function Row1(): (row: seq<Word>) ensures |row| == 16 { ROW1 }

  function Row2(): (row: seq<Word>) ensures |row| == 16 { ROW2 }

  function Row3(): (row: seq<Word>) ensures |row| == 16 { ROW3 }

  function Row4(): (row: seq<Word>) ensures |row| == 16 { ROW4 }

  function Row5(): (row: seq<Word>) ensures |row| == 16 { ROW5 }

  function Row6(): (row: seq<Word>) ensures |row| == 16 { ROW6 }

  function Row7(): (row: seq<Word>) ensures |row| == 16 { ROW7 }

  function Row8(): (row: seq<Word>) ensures |row| == 16 { ROW8 }

  function Row9(): (row: seq<Word>) ensures |row| == 16 { ROW9 }

  function RowA(): (row: seq<Word>) ensures |row| == 16 { ROWA }

  function RowB(): (row: seq<Word>) ensures |row| == 16 { ROWB }

  function RowC(): (row: seq<Word>) ensures |row| == 16 { ROWC }

  function RowD(): (row: seq<Word>) ensures |row| == 16 { ROWD }

  function RowE(): (row: seq<Word>) ensures |row| == 16 { ROWE }

  function RowF(): (row: seq<Word>) ensures |row| == 16 { ROWF }

  function Row(k: bv8): (row: seq<Word>)
    requires k < 16
    ensures |row| == 16
  {
    if k == 0 then Row0() else if k == 1 then Row1() else if k == 2 then Row2() else if k == 3 then Row3()
    else if k == 4 then Row4() else if k == 5 then Row5() else if k == 6 then Row6() else if k == 7 then Row7()
    else if k == 8 then Row8() else if k == 9 then Row9() else if k == 10 then RowA() else if k == 11 then RowB()
    else if k == 12 then RowC() else if k == 13 then RowD() else if k == 14 then RowE() else RowF()
  }

  function Lookup(x: bv8): Word { Row(x >> 4)[(x & 0xF) as int] }

  /** Row entries are sums of the first one and an entry of the first row. */
  predicate Sums(row: seq<Word>)
    requires |row| == 16
  {
    && row[0] == Xor(row[0], ROW0[0]) && row[1] == Xor(row[0], ROW0[1])
    && row[2] == Xor(row[0], ROW0[2]) && row[3] == Xor(row[0], ROW0[3])
    && row[4] == Xor(row[0], ROW0[4]) && row[5] == Xor(row[0], ROW0[5])
    && row[6] == Xor(row[0], ROW0[6]) && row[7] == Xor(row[0], ROW0[7])
    && row[8] == Xor(row[0], ROW0[8]) && row[9] == Xor(row[0], ROW0[9])
    && row[10] == Xor(row[0], ROW0[10]) && row[11] == Xor(row[0], ROW0[11])
    && row[12] == Xor(row[0], ROW0[12]) && row[13] == Xor(row[0], ROW0[13])
    && row[14] == Xor(row[0], ROW0[14]) && row[15] == Xor(row[0], ROW0[15])
  }

  lemma Sums0()
    ensures Sums(ROW0) && Sums(ROW1) && Sums(ROW2) && Sums(ROW3)
  {}

  lemma RowSums0()
    ensures Sums(Row0()) && Sums(Row1()) && Sums(Row2()) && Sums(Row3())
  {
    hide Sums;
    Sums0();
  }

  lemma Sums4()
    ensures Sums(ROW4) && Sums(ROW5) && Sums(ROW6) && Sums(ROW7)
  {}

  lemma RowSums4()
    ensures Sums(Row4()) && Sums(Row5()) && Sums(Row6()) && Sums(Row7())
  {
    hide Sums;
    Sums4();
  }

  lemma Sums8()
    ensures Sums(ROW8) && Sums(ROW9) && Sums(ROWA) && Sums(ROWB)
  {}

  lemma RowSums8()
    ensures Sums(Row8()) && Sums(Row9()) && Sums(RowA()) && Sums(RowB())
  {
    hide Sums;
    Sums8();
  }

  lemma SumsC()
    ensures Sums(ROWC) && Sums(ROWD) && Sums(ROWE) && Sums(ROWF)
  {}

  lemma RowSumsC()
    ensures Sums(RowC()) && Sums(RowD()) && Sums(RowE()) && Sums(RowF())
  {
    hide Sums;
    SumsC();
  }

  lemma RowSums(k: bv8)
    requires k < 16
    ensures Sums(Row(k))
  {
    hide Sums, Row0, Row1, Row2, Row3, Row4, Row5, Row6, Row7, Row8, Row9, RowA, RowB, RowC, RowD, RowE, RowF;
    RowSums0();
    RowSums4();
    RowSums8();
    RowSumsC();
  }

  /** A half byte is one of sixteen, as a bit vector and as a number. */
  lemma Nibble(j: bv8)
    requires j < 16
    ensures (j == 0 && j as int == 0) || (j == 1 && j as int == 1)
      || (j == 2 && j as int == 2) || (j == 3 && j as int == 3)
      || (j == 4 && j as int == 4) || (j == 5 && j as int == 5)
      || (j == 6 && j as int == 6) || (j == 7 && j as int == 7)
      || (j == 8 && j as int == 8) || (j == 9 && j as int == 9)
      || (j == 10 && j as int == 10) || (j == 11 && j as int == 11)
      || (j == 12 && j as int == 12) || (j == 13 && j as int == 13)
      || (j == 14 && j as int == 14) || (j == 15 && j as int == 15)
  {}

  // ----- the table is right -----

  lemma ShiftedXor(x: Word, y: Word)
    ensures Shifted(Xor(x, y)) == Xor(Shifted(x), Shifted(y))
    ensures (x.d ^ y.d) & 1 == 1 <==> (x.d & 1 == 1) != (y.d & 1 == 1)
  {}

  lemma XorIs(x: Word, y: Word)
    ensures Xor(x, y) == W(Plus(x.a, y.a), Plus(x.b, y.b), Plus(x.c, y.c), Plus(x.d, y.d))
  {}

  lemma XorLaws(x: Word, y: Word, p: Word)
    ensures Xor(Xor(x, y), p) == Xor(Xor(x, p), y) == Xor(x, Xor(y, p))
    ensures Xor(Xor(x, p), Xor(y, p)) == Xor(x, y)
  {
    hide Xor, Plus;
    XorIs(x, y);
    XorIs(x, p);
    XorIs(y, p);
    XorIs(Xor(x, y), p);
    XorIs(Xor(x, p), y);
    XorIs(x, Xor(y, p));
    XorIs(Xor(x, p), Xor(y, p));
    ByteLaws(x.a, y.a, p.a);
    ByteLaws(x.b, y.b, p.b);
    ByteLaws(x.c, y.c, p.c);
    ByteLaws(x.d, y.d, p.d);
  }

  lemma ByteLaws(x: bv8, y: bv8, p: bv8)
    ensures Plus(Plus(x, y), p) == Plus(Plus(x, p), y) == Plus(x, Plus(y, p))
    ensures Plus(Plus(x, p), Plus(y, p)) == Plus(x, y)
  {}

  lemma StepXor(x: Word, y: Word)
    ensures Step(Xor(x, y)) == Xor(Step(x), Step(y))
  {
    hide Shifted;
    ShiftedXor(x, y);
    XorLaws(Shifted(x), Shifted(y), POLYNOMIAL);
  }

  lemma Step2Xor(x: Word, y: Word)
    ensures Step2(Xor(x, y)) == Xor(Step2(x), Step2(y))
  {
    hide Step, Xor;
    StepXor(x, y);
    StepXor(Step(x), Step(y));
  }

  lemma Step4Xor(x: Word, y: Word)
    ensures Step4(Xor(x, y)) == Xor(Step4(x), Step4(y))
  {
    hide Step2, Xor;
    Step2Xor(x, y);
    Step2Xor(Step2(x), Step2(y));
  }

  lemma Step8Xor(x: Word, y: Word)
    ensures Step8(Xor(x, y)) == Xor(Step8(x), Step8(y))
  {
    hide Step4, Xor;
    Step4Xor(x, y);
    Step4Xor(Step4(x), Step4(y));
  }

  /** What eight steps make of a single byte. */
  function Eight(x: bv8): Word { Step8(W(0, 0, 0, x)) }

  lemma EightXor(x: bv8, y: bv8)
    ensures Eight(x ^ y) == Xor(Eight(x), Eight(y))
  {
    hide Step8;
    Step8Xor(W(0, 0, 0, x), W(0, 0, 0, y));
  }

  lemma OneMoreStep(r: Word)
    ensures Step8(Step(r)) == Step(Step8(r))
  {
    hide Step;
  }

  lemma EightHalf(x: bv8)
    requires x < 0x80
    ensures Eight(x) == Step(Eight(x << 1))
  {
    hide Step8;
    OneMoreStep(W(0, 0, 0, x << 1));
  }

  /** The powers of two, from the highest, which takes the polynomial in once, down. */
  lemma Powers()
    ensures Eight(0x80) == Row8()[0] && Eight(0x40) == Row4()[0] && Eight(0x20) == Row2()[0] && Eight(0x10) == Row1()[0]
    ensures Eight(8) == Row0()[8] && Eight(4) == Row0()[4] && Eight(2) == Row0()[2] && Eight(1) == Row0()[1]
  {
    HighPower();
    hide Eight;
    EightHalf(0x40);
    EightHalf(0x20);
    EightHalf(0x10);
    EightHalf(8);
    EightHalf(4);
    EightHalf(2);
    EightHalf(1);
  }

  lemma HighPower()
    ensures Eight(0x80) == Row8()[0] && Eight(0) == Row0()[0]
  {}

  /** An entry of the first row that is the sum of two others. */
  lemma Entry(h: bv8, l: bv8, i: nat, j: nat, k: nat)
    requires i < 16 && j < 16 && k < 16 && Eight(h) == ROW0[i] && Eight(l) == ROW0[j]
    requires ROW0[k] == Xor(ROW0[i], ROW0[j])
    ensures Eight(h ^ l) == ROW0[k]
  {
    hide Eight;
    EightXor(h, l);
  }

  lemma LowPowers()
    ensures Eight(8) == ROW0[8] && Eight(4) == ROW0[4] && Eight(2) == ROW0[2] && Eight(1) == ROW0[1]
  {
    hide Eight, Row1, Row2, Row4, Row8;
    Powers();
  }

  lemma Three()
    ensures Eight(3) == ROW0[3]
  {
    hide Eight;
    LowPowers();
    Entry(2, 1, 2, 1, 3);
  }

  lemma Lows()
    ensures Eight(3) == ROW0[3] && Eight(5) == ROW0[5] && Eight(6) == ROW0[6] && Eight(7) == ROW0[7]
  {
    hide Eight;
    LowPowers();
    Three();
    Entry(4, 1, 4, 1, 5);
    Entry(4, 2, 4, 2, 6);
    Entry(4, 3, 4, 3, 7);
  }

  lemma Highs()
    ensures Eight(9) == ROW0[9] && Eight(10) == ROW0[10] && Eight(11) == ROW0[11] && Eight(12) == ROW0[12]
    ensures Eight(13) == ROW0[13] && Eight(14) == ROW0[14] && Eight(15) == ROW0[15]
  {
    hide Eight;
    LowPowers();
    Lows();
    Entry(8, 1, 8, 1, 9);
    Entry(8, 2, 8, 2, 10);
    Entry(8, 3, 8, 3, 11);
    Entry(8, 4, 8, 4, 12);
    Entry(8, 5, 8, 5, 13);
    Entry(8, 6, 8, 6, 14);
    Entry(8, 7, 8, 7, 15);
  }

  lemma LowNibble(j: bv8)
    requires j < 16
    ensures ROW0[j as int] == Eight(j)
  {
    hide Eight, Xor;
    HighPower();
    Powers();
    Lows();
    Highs();
    Nibble(j);
  }

  lemma HighNibble(k: bv8)
    requires k < 16
    ensures Row(k)[0] == Eight(k << 4)
  {
    hide Eight;
    HighPower();
    Powers();
    EightXor(0x20, 0x10);
    EightXor(0x40, 0x10);
    EightXor(0x40, 0x20);
    EightXor(0x40, 0x30);
    EightXor(0x80, 0x10);
    EightXor(0x80, 0x20);
    EightXor(0x80, 0x30);
    EightXor(0x80, 0x40);
    EightXor(0x80, 0x50);
    EightXor(0x80, 0x60);
    EightXor(0x80, 0x70);
    Nibble(k);
  }

  lemma RowEntry(row: seq<Word>, j: bv8)
    requires |row| == 16 && j < 16 && Sums(row)
    ensures row[j as int] == Xor(row[0], Row0()[j as int])
  {
    hide Xor;
    Nibble(j);
  }

  lemma TwoNibbles(x: bv8)
    ensures x >> 4 < 16 && x & 0xF < 16 && x == ((x >> 4) << 4) ^ (x & 0xF)
  {}

  /** The table holds, for every byte, what eight steps make of it. */
  lemma TableIsBits(x: bv8)
    ensures Lookup(x) == Eight(x)
  {
    hide Eight, Row, Xor, Sums;
    TwoNibbles(x);
    RowSums(x >> 4);
    RowEntry(Row(x >> 4), x & 0xF);
    HighNibble(x >> 4);
    LowNibble(x & 0xF);
    EightXor((x >> 4) << 4, x & 0xF);
  }

  // ----- by table -----

  /** The register after one more byte, with one look into the table. */
  function FeedByTable(r: Word, x: bv8): Word { Xor(Lookup(r.d ^ x), W(0, r.a, r.b, r.c)) }

  /** Bits that do not reach the end of the register only move. */
  lemma Step8High(a: bv8, b: bv8, c: bv8)
    ensures Step8(W(a, b, c, 0)) == W(0, a, b, c)
  {}

  lemma Halves(r: Word)
    ensures r == Xor(W(0, 0, 0, r.d), W(r.a, r.b, r.c, 0))
  {}

  /** One look into the table does the work of eight steps. */
  lemma TableFeeds(r: Word, x: bv8)
    ensures FeedByTable(r, x) == Feed(r, x)
  {
    hide Step8, Lookup, Xor;
    var s := W(r.a, r.b, r.c, r.d ^ x);
    Halves(s);
    Step8Xor(W(0, 0, 0, s.d), W(s.a, s.b, s.c, 0));
    Step8High(s.a, s.b, s.c);
    TableIsBits(s.d);
  }

  /** Computes the checksum of a message with the table. */
  method Crc32(p: seq<bv8>) returns (crc: Word)
    ensures crc == Checksum(p)
  {
    hide FeedByTable, Feed, Xor;
    crc := ONES;
    var i := 0;
    while i < |p|
      invariant 0 <= i <= |p| && crc == Register(ONES, p[..i])
    {
      TableFeeds(crc, p[i]);
      assert p[..i+1][..i] == p[..i];
      crc := FeedByTable(crc, p[i]);
      i := i + 1;
    }
    assert p[..i] == p;
    crc := Xor(crc, ONES);
  }

  // ----- what it detects -----

  lemma XorOnce(x: Word, y: Word, p: Word)
    ensures Xor(x, p) == Xor(y, p) ==> x == y
  {
    hide Xor, Plus;
    XorIs(x, p);
    XorIs(y, p);
    ByteOnce(x.a, y.a, p.a);
    ByteOnce(x.b, y.b, p.b);
    ByteOnce(x.c, y.c, p.c);
    ByteOnce(x.d, y.d, p.d);
  }

  lemma ByteOnce(x: bv8, y: bv8, p: bv8)
    ensures Plus(x, p) == Plus(y, p) ==> x == y
    ensures Plus(p, x) == Plus(p, y) ==> x == y
  {}

  lemma ShiftedOnce(x: Word, y: Word)
    ensures Shifted(x) == Shifted(y) && x.d & 1 == y.d & 1 ==> x == y
    ensures Shifted(x).a & 0x80 == 0 && Xor(Shifted(x), POLYNOMIAL).a & 0x80 == 0x80
  {}

  lemma StepOnce(x: Word, y: Word)
    requires Step(x) == Step(y)
    ensures x == y
  {
    hide Shifted, Xor;
    ShiftedOnce(x, y);
    ShiftedOnce(y, x);
    XorOnce(Shifted(x), Shifted(y), POLYNOMIAL);
    LowBit(x.d);
    LowBit(y.d);
  }

  lemma LowBit(x: bv8)
    ensures x & 1 == 0 || x & 1 == 1
  {}

  lemma Step2Once(x: Word, y: Word)
    requires Step2(x) == Step2(y)
    ensures x == y
  {
    hide Step;
    StepOnce(Step(x), Step(y));
    StepOnce(x, y);
  }

  lemma Step8Once(x: Word, y: Word)
    requires Step8(x) == Step8(y)
    ensures x == y
  {
    hide Step2;
    Step2Once(Step2(Step2(Step2(x))), Step2(Step2(Step2(y))));
    Step2Once(Step2(Step2(x)), Step2(Step2(y)));
    Step2Once(Step2(x), Step2(y));
    Step2Once(x, y);
  }

  lemma FeedIs(r: Word, x: bv8)
    ensures Feed(r, x) == Step8(W(r.a, r.b, r.c, Plus(r.d, x)))
  {
    hide Step8;
  }

  /** Feeding a byte loses nothing of the register, nor of the byte. */
  lemma FeedOnce(r: Word, s: Word, x: bv8, y: bv8)
    ensures r != s ==> Feed(r, x) != Feed(s, x)
    ensures x != y ==> Feed(r, x) != Feed(r, y)
  {
    hide Feed, Step8, Plus;
    FeedIs(r, x);
    FeedIs(s, x);
    FeedIs(r, y);
    ByteOnce(r.d, s.d, x);
    ByteOnce(x, y, r.d);
    var u, v, w := W(r.a, r.b, r.c, Plus(r.d, x)), W(s.a, s.b, s.c, Plus(s.d, x)), W(r.a, r.b, r.c, Plus(r.d, y));
    assert (r != s ==> u != v) && (x != y ==> u != w);
    if Step8(u) == Step8(v) { Step8Once(u, v); }
    if Step8(u) == Step8(w) { Step8Once(u, w); }
  }

  /** Registers that differ stay different through the same bytes. */
  lemma {:induction false} Apart(r: Word, s: Word, bytes: seq<bv8>)
    requires r != s
    ensures Register(r, bytes) != Register(s, bytes)
  {
    hide Feed;
    if bytes != [] {
      var less, x := bytes[..|bytes|-1], bytes[|bytes|-1];
      Apart(r, s, less);
      FeedOnce(Register(r, less), Register(s, less), x, x);
    }
  }

  lemma {:induction false} Joined(r: Word, a: seq<bv8>, b: seq<bv8>)
    ensures Register(r, a + b) == Register(Register(r, a), b)
  {
    hide Feed;
    if b == [] {
      assert a + b == a;
    } else {
      assert (a + b)[..|a + b| - 1] == a + b[..|b|-1];
      Joined(r, a, b[..|b|-1]);
    }
  }

  lemma OneByte(r: Word, x: bv8)
    ensures Register(r, [x]) == Feed(r, x)
  {
    hide Feed;
    assert [x][..0] == [];
    assert Register(r, []) == r;
  }

  /** A single changed byte changes the checksum, wherever it is. */
  lemma ChangeShows(a: seq<bv8>, x: bv8, y: bv8, b: seq<bv8>)
    requires x != y
    ensures Checksum(a + [x] + b) != Checksum(a + [y] + b)
  {
    hide Feed, Xor;
    var r := Register(ONES, a);
    Joined(ONES, a + [x], b);
    Joined(ONES, a + [y], b);
    Joined(ONES, a, [x]);
    Joined(ONES, a, [y]);
    OneByte(r, x);
    OneByte(r, y);
    FeedOnce(r, r, x, y);
    Apart(Feed(r, x), Feed(r, y), b);
    XorOnce(Register(Feed(r, x), b), Register(Feed(r, y), b), ONES);
  }

  // ----- a known checksum -----

  /** The digits from 1 to 9, by their codes. */
  function OneToNine(): (s: seq<bv8>)
    ensures |s| == 9
  {
    [0x31, 0x32, 0x33, 0x34, 0x35, 0x36, 0x37, 0x38, 0x39]
  }

  lemma OneMore(k: nat, before: Word, after: Word)
    requires k < 9 && Register(ONES, OneToNine()[..k]) == before && FeedByTable(before, OneToNine()[k]) == after
    ensures Register(ONES, OneToNine()[..k + 1]) == after
  {
    hide FeedByTable, Feed, OneToNine;
    TableFeeds(before, OneToNine()[k]);
    assert OneToNine()[..k + 1][..k] == OneToNine()[..k];
  }

  /** The checksum of these digits is the one that catalogues of checksums name. */
  lemma CheckValue()
    ensures Checksum([0x31, 0x32, 0x33, 0x34, 0x35, 0x36, 0x37, 0x38, 0x39]) == W(0xCB, 0xF4, 0x39, 0x26)
  {
    hide Register, Xor;
    CheckRegister();
    CheckInverted();
    assert OneToNine()[..9] == OneToNine();
  }

  lemma CheckInverted()
    ensures Xor(W(0x34, 0x0B, 0xC6, 0xD9), ONES) == W(0xCB, 0xF4, 0x39, 0x26)
  {}

  lemma CheckRegister()
    ensures Register(ONES, OneToNine()[..9]) == W(0x34, 0x0B, 0xC6, 0xD9)
  {
    hide FeedByTable;
    AfterOne();
    AfterTwo();
    AfterThree();
    AfterFour();
    AfterFive();
    AfterSix();
    AfterSeven();
    AfterEight();
    AfterNine();
    CheckDigits();
    hide OneToNine;
    OneMore(0, W(0xFF, 0xFF, 0xFF, 0xFF), W(0x7C, 0x23, 0x10, 0x48));
    OneMore(1, W(0x7C, 0x23, 0x10, 0x48), W(0xB0, 0xAC, 0xBB, 0x32));
    OneMore(2, W(0xB0, 0xAC, 0xBB, 0x32), W(0x77, 0xB7, 0x9C, 0x2D));
    OneMore(3, W(0x77, 0xB7, 0x9C, 0x2D), W(0x64, 0x1C, 0x1F, 0x5C));
    OneMore(4, W(0x64, 0x1C, 0x1F, 0x5C), W(0x34, 0x0A, 0xC5, 0xE3));
    OneMore(5, W(0x34, 0x0A, 0xC5, 0xE3), W(0xF6, 0x8D, 0x2C, 0x9E));
    OneMore(6, W(0xF6, 0x8D, 0x2C, 0x9E), W(0xAF, 0xFC, 0x96, 0x60));
    OneMore(7, W(0xAF, 0xFC, 0x96, 0x60), W(0x65, 0x1F, 0x25, 0x50));
    OneMore(8, W(0x65, 0x1F, 0x25, 0x50), W(0x34, 0x0B, 0xC6, 0xD9));
  }

  lemma CheckDigits()
    ensures var s := OneToNine();
      && s[0] == 0x31 && s[1] == 0x32 && s[2] == 0x33 && s[3] == 0x34 && s[4] == 0x35 && s[5] == 0x36 && s[6] == 0x37
      && s[7] == 0x38 && s[8] == 0x39
    ensures Register(ONES, OneToNine()[..0]) == ONES
  {}

  /** One look into the table, row and place by themselves. */
  lemma Looked(r: Word, x: bv8, k: bv8, j: bv8, n: nat, entry: Word, after: Word)
    requires k < 16 && j < 16 && r.d ^ x == (k << 4) | j && j as int == n < 16 && Row(k)[n] == entry
    requires Xor(entry, W(0, r.a, r.b, r.c)) == after
    ensures FeedByTable(r, x) == after
  {
    hide Row, Xor;
    Halved(k, j);
  }

  lemma Halved(k: bv8, j: bv8)
    requires k < 16 && j < 16
    ensures ((k << 4) | j) >> 4 == k && ((k << 4) | j) & 0xF == j
  {}

  lemma Nibbles()
    ensures (1 as bv8) as int == 1 && (5 as bv8) as int == 5 && (8 as bv8) as int == 8 && (9 as bv8) as int == 9
    ensures (10 as bv8) as int == 10 && (14 as bv8) as int == 14
  {}

  lemma RowsAre()
    ensures Row(0) == Row0() && Row(1) == Row1() && Row(5) == Row5() && Row(6) == Row6()
    ensures Row(7) == Row7() && Row(10) == RowA() && Row(12) == RowC() && Row(13) == RowD()
  {
    hide Row0, Row1, Row2, Row3, Row4, Row5, Row6, Row7, Row8, Row9, RowA, RowB, RowC, RowD, RowE, RowF;
  }

  lemma EntryCE()
    ensures Row(12)[14] == W(0x7C, 0xDC, 0xEF, 0xB7)
  {
    hide Row;
    RowsAre();
  }

  lemma Entry7A()
    ensures Row(7)[10] == W(0xB0, 0xD0, 0x98, 0x22)
  {
    hide Row;
    RowsAre();
  }

  lemma Entry01()
    ensures Row(0)[1] == W(0x77, 0x07, 0x30, 0x96)
  {
    hide Row;
    RowsAre();
  }

  lemma Entry19()
    ensures Row(1)[9] == W(0x64, 0x6B, 0xA8, 0xC0)
  {
    hide Row;
    RowsAre();
  }

  lemma Entry69()
    ensures Row(6)[9] == W(0x34, 0x6E, 0xD9, 0xFC)
  {
    hide Row;
    RowsAre();
  }

  lemma EntryD5()
    ensures Row(13)[5] == W(0xF6, 0xB9, 0x26, 0x5B)
  {
    hide Row;
    RowsAre();
  }

  lemma EntryA9()
    ensures Row(10)[9] == W(0xAF, 0x0A, 0x1B, 0x4C)
  {
    hide Row;
    RowsAre();
  }

  lemma Entry58()
    ensures Row(5)[8] == W(0x65, 0xB0, 0xD9, 0xC6)
  {
    hide Row;
    RowsAre();
  }

  lemma AfterOne()
    ensures FeedByTable(W(0xFF, 0xFF, 0xFF, 0xFF), 0x31) == W(0x7C, 0x23, 0x10, 0x48)
  {
    hide FeedByTable, Row;
    Nibbles();
    EntryCE();
    Looked(W(0xFF, 0xFF, 0xFF, 0xFF), 0x31, 12, 14, 14, W(0x7C, 0xDC, 0xEF, 0xB7), W(0x7C, 0x23, 0x10, 0x48));
  }

  lemma AfterTwo()
    ensures FeedByTable(W(0x7C, 0x23, 0x10, 0x48), 0x32) == W(0xB0, 0xAC, 0xBB, 0x32)
  {
    hide FeedByTable, Row;
    Nibbles();
    Entry7A();
    Looked(W(0x7C, 0x23, 0x10, 0x48), 0x32, 7, 10, 10, W(0xB0, 0xD0, 0x98, 0x22), W(0xB0, 0xAC, 0xBB, 0x32));
  }

  lemma AfterThree()
    ensures FeedByTable(W(0xB0, 0xAC, 0xBB, 0x32), 0x33) == W(0x77, 0xB7, 0x9C, 0x2D)
  {
    hide FeedByTable, Row;
    Nibbles();
    Entry01();
    Looked(W(0xB0, 0xAC, 0xBB, 0x32), 0x33, 0, 1, 1, W(0x77, 0x07, 0x30, 0x96), W(0x77, 0xB7, 0x9C, 0x2D));
  }

  lemma AfterFour()
    ensures FeedByTable(W(0x77, 0xB7, 0x9C, 0x2D), 0x34) == W(0x64, 0x1C, 0x1F, 0x5C)
  {
    hide FeedByTable, Row;
    Nibbles();
    Entry19();
    Looked(W(0x77, 0xB7, 0x9C, 0x2D), 0x34, 1, 9, 9, W(0x64, 0x6B, 0xA8, 0xC0), W(0x64, 0x1C, 0x1F, 0x5C));
  }

  lemma AfterFive()
    ensures FeedByTable(W(0x64, 0x1C, 0x1F, 0x5C), 0x35) == W(0x34, 0x0A, 0xC5, 0xE3)
  {
    hide FeedByTable, Row;
    Nibbles();
    Entry69();
    Looked(W(0x64, 0x1C, 0x1F, 0x5C), 0x35, 6, 9, 9, W(0x34, 0x6E, 0xD9, 0xFC), W(0x34, 0x0A, 0xC5, 0xE3));
  }

  lemma AfterSix()
    ensures FeedByTable(W(0x34, 0x0A, 0xC5, 0xE3), 0x36) == W(0xF6, 0x8D, 0x2C, 0x9E)
  {
    hide FeedByTable, Row;
    Nibbles();
    EntryD5();
    Looked(W(0x34, 0x0A, 0xC5, 0xE3), 0x36, 13, 5, 5, W(0xF6, 0xB9, 0x26, 0x5B), W(0xF6, 0x8D, 0x2C, 0x9E));
  }

  lemma AfterSeven()
    ensures FeedByTable(W(0xF6, 0x8D, 0x2C, 0x9E), 0x37) == W(0xAF, 0xFC, 0x96, 0x60)
  {
    hide FeedByTable, Row;
    Nibbles();
    EntryA9();
    Looked(W(0xF6, 0x8D, 0x2C, 0x9E), 0x37, 10, 9, 9, W(0xAF, 0x0A, 0x1B, 0x4C), W(0xAF, 0xFC, 0x96, 0x60));
  }

  lemma AfterEight()
    ensures FeedByTable(W(0xAF, 0xFC, 0x96, 0x60), 0x38) == W(0x65, 0x1F, 0x25, 0x50)
  {
    hide FeedByTable, Row;
    Nibbles();
    Entry58();
    Looked(W(0xAF, 0xFC, 0x96, 0x60), 0x38, 5, 8, 8, W(0x65, 0xB0, 0xD9, 0xC6), W(0x65, 0x1F, 0x25, 0x50));
  }

  lemma AfterNine()
    ensures FeedByTable(W(0x65, 0x1F, 0x25, 0x50), 0x39) == W(0x34, 0x0B, 0xC6, 0xD9)
  {
    hide FeedByTable, Row;
    Nibbles();
    Entry69();
    Looked(W(0x65, 0x1F, 0x25, 0x50), 0x39, 6, 9, 9, W(0x34, 0x6E, 0xD9, 0xFC), W(0x34, 0x0B, 0xC6, 0xD9));
  }
}
