/** The literal logarithm table of ec_base.h, compared with the powers of x. */
module GflogTable {
  import opened GaloisField
  import opened GfTables

  /** gflog_base, sixteen entries a row: one row for each high nibble. */
  function GflogRow(h: int): (row: seq<int>)
    requires 0 <= h < 16
    ensures |row| == 16
  {
    match h
    case 0 => [0x00, 0xff, 0x01, 0x19, 0x02, 0x32, 0x1a, 0xc6, 0x03, 0xdf, 0x33, 0xee, 0x1b, 0x68, 0xc7, 0x4b]
    case 1 => [0x04, 0x64, 0xe0, 0x0e, 0x34, 0x8d, 0xef, 0x81, 0x1c, 0xc1, 0x69, 0xf8, 0xc8, 0x08, 0x4c, 0x71]
    case 2 => [0x05, 0x8a, 0x65, 0x2f, 0xe1, 0x24, 0x0f, 0x21, 0x35, 0x93, 0x8e, 0xda, 0xf0, 0x12, 0x82, 0x45]
    case 3 => [0x1d, 0xb5, 0xc2, 0x7d, 0x6a, 0x27, 0xf9, 0xb9, 0xc9, 0x9a, 0x09, 0x78, 0x4d, 0xe4, 0x72, 0xa6]
    case 4 => [0x06, 0xbf, 0x8b, 0x62, 0x66, 0xdd, 0x30, 0xfd, 0xe2, 0x98, 0x25, 0xb3, 0x10, 0x91, 0x22, 0x88]
    case 5 => [0x36, 0xd0, 0x94, 0xce, 0x8f, 0x96, 0xdb, 0xbd, 0xf1, 0xd2, 0x13, 0x5c, 0x83, 0x38, 0x46, 0x40]
    case 6 => [0x1e, 0x42, 0xb6, 0xa3, 0xc3, 0x48, 0x7e, 0x6e, 0x6b, 0x3a, 0x28, 0x54, 0xfa, 0x85, 0xba, 0x3d]
    case 7 => [0xca, 0x5e, 0x9b, 0x9f, 0x0a, 0x15, 0x79, 0x2b, 0x4e, 0xd4, 0xe5, 0xac, 0x73, 0xf3, 0xa7, 0x57]
    case 8 => [0x07, 0x70, 0xc0, 0xf7, 0x8c, 0x80, 0x63, 0x0d, 0x67, 0x4a, 0xde, 0xed, 0x31, 0xc5, 0xfe, 0x18]
    case 9 => [0xe3, 0xa5, 0x99, 0x77, 0x26, 0xb8, 0xb4, 0x7c, 0x11, 0x44, 0x92, 0xd9, 0x23, 0x20, 0x89, 0x2e]
    case 10 => [0x37, 0x3f, 0xd1, 0x5b, 0x95, 0xbc, 0xcf, 0xcd, 0x90, 0x87, 0x97, 0xb2, 0xdc, 0xfc, 0xbe, 0x61]
    case 11 => [0xf2, 0x56, 0xd3, 0xab, 0x14, 0x2a, 0x5d, 0x9e, 0x84, 0x3c, 0x39, 0x53, 0x47, 0x6d, 0x41, 0xa2]
    case 12 => [0x1f, 0x2d, 0x43, 0xd8, 0xb7, 0x7b, 0xa4, 0x76, 0xc4, 0x17, 0x49, 0xec, 0x7f, 0x0c, 0x6f, 0xf6]
    case 13 => [0x6c, 0xa1, 0x3b, 0x52, 0x29, 0x9d, 0x55, 0xaa, 0xfb, 0x60, 0x86, 0xb1, 0xbb, 0xcc, 0x3e, 0x5a]
    case 14 => [0xcb, 0x59, 0x5f, 0xb0, 0x9c, 0xa9, 0xa0, 0x51, 0x0b, 0xf5, 0x16, 0xeb, 0x7a, 0x75, 0x2c, 0xd7]
    case _ => [0x4f, 0xae, 0xd5, 0xe9, 0xe6, 0xe7, 0xad, 0xe8, 0x74, 0xd6, 0xf4, 0xea, 0xa8, 0x50, 0x58, 0xaf]
  }

  /** What gf_mul and gf_inv read. */
  function GflogBase(b: bv8): int {
    GflogRow((b >> 4) as int)[(b & 0xf) as int]
  }

  /** The logarithms of a byte and of its double; 0 is only entered for the byte 0. */
  predicate Follows(log: int, next: int) {
    log == 0 || next == if log == 255 then 1 else log + 1
  }

  /** The doubles of a row without the top bit are the even entries of two rows. */
  predicate Doubled(row: seq<int>, low: seq<int>, high: seq<int>)
    requires |row| == |low| == |high| == 16
  {
    && Follows(row[0], low[0]) && Follows(row[1], low[2]) && Follows(row[2], low[4]) && Follows(row[3], low[6])
    && Follows(row[4], low[8]) && Follows(row[5], low[10]) && Follows(row[6], low[12]) && Follows(row[7], low[14])
    && Follows(row[8], high[0]) && Follows(row[9], high[2]) && Follows(row[10], high[4]) && Follows(row[11], high[6])
    && Follows(row[12], high[8]) && Follows(row[13], high[10]) && Follows(row[14], high[12]) && Follows(row[15], high[14])
  }

  /** With the top bit the doubles are reduced by 0x1d, which permutes the odd entries. */
  predicate Reduced(row: seq<int>, low: seq<int>, high: seq<int>)
    requires |row| == |low| == |high| == 16
  {
    && Follows(row[0], low[13]) && Follows(row[1], low[15]) && Follows(row[2], low[9]) && Follows(row[3], low[11])
    && Follows(row[4], low[5]) && Follows(row[5], low[7]) && Follows(row[6], low[1]) && Follows(row[7], low[3])
    && Follows(row[8], high[13]) && Follows(row[9], high[15]) && Follows(row[10], high[9]) && Follows(row[11], high[11])
    && Follows(row[12], high[5]) && Follows(row[13], high[7]) && Follows(row[14], high[1]) && Follows(row[15], high[3])
  }

  predicate RowFollows(h: int)
    requires 0 <= h < 16
  {
    if h < 8 then Doubled(GflogRow(h), GflogRow(2 * h), GflogRow(2 * h + 1))
    else Reduced(GflogRow(h), GflogRow(2 * h - 15), GflogRow(2 * h - 16))
  }

  lemma RowsFollow(h: int)
    requires 0 <= h < 16
    ensures RowFollows(h)
  {
    hide RowFollows;
    match h / 2
    case 0 => RowsFollow0();
    case 1 => RowsFollow2();
    case 2 => RowsFollow4();
    case 3 => RowsFollow6();
    case 4 => RowsFollow8();
    case 5 => RowsFollow10();
    case 6 => RowsFollow12();
    case _ => RowsFollow14();
  }

  lemma RowsFollow0()
    ensures RowFollows(0) && RowFollows(1)
  {
    assert Doubled(GflogRow(0), GflogRow(0), GflogRow(1));
    assert Doubled(GflogRow(1), GflogRow(2), GflogRow(3));
  }

  lemma RowsFollow2()
    ensures RowFollows(2) && RowFollows(3)
  {
    assert Doubled(GflogRow(2), GflogRow(4), GflogRow(5));
    assert Doubled(GflogRow(3), GflogRow(6), GflogRow(7));
  }

  lemma RowsFollow4()
    ensures RowFollows(4) && RowFollows(5)
  {
    assert Doubled(GflogRow(4), GflogRow(8), GflogRow(9));
    assert Doubled(GflogRow(5), GflogRow(10), GflogRow(11));
  }

  lemma RowsFollow6()
    ensures RowFollows(6) && RowFollows(7)
  {
    assert Doubled(GflogRow(6), GflogRow(12), GflogRow(13));
    assert Doubled(GflogRow(7), GflogRow(14), GflogRow(15));
  }

  lemma RowsFollow8()
    ensures RowFollows(8) && RowFollows(9)
  {
  }

  lemma RowsFollow10()
    ensures RowFollows(10) && RowFollows(11)
  {
  }

  lemma RowsFollow12()
    ensures RowFollows(12) && RowFollows(13)
  {
  }

  lemma RowsFollow14()
    ensures RowFollows(14) && RowFollows(15)
  {
  }

  /** Where the double of a byte stands in the table. */
  lemma DoubleNibbles(b: bv8)
    ensures var h, l := (b >> 4) as int, (b & 0xf) as int;
            && 0 <= h < 16 && 0 <= l < 16
            && (Xtime(b) >> 4) as int == (if h < 8 then 2 * h + (if l < 8 then 0 else 1) else 2 * h - (if l < 8 then 15 else 16))
            && (Xtime(b) & 0xf) as int == (if h < 8 then Even(l) else Odd(l))
  {}

  function Even(l: int): int { if l < 8 then 2 * l else 2 * l - 16 }

  /** 2l modulo 16, with the bits of 0xd flipped. */
  function Odd(l: int): int {
    var e := Even(l);
    if e == 0 then 13 else if e == 2 then 15 else if e == 4 then 9 else if e == 6 then 11
    else if e == 8 then 5 else if e == 10 then 7 else if e == 12 then 1 else 3
  }

  lemma DoubleFollows(b: bv8)
    ensures Follows(GflogBase(b), GflogBase(Xtime(b)))
  {
    hide GflogRow, Xtime, Follows;
    DoubleNibbles(b);
    RowsFollow((b >> 4) as int);
  }

  /** Entry Gff(i) of the literal table is i. */
  lemma {:induction false} GflogBaseGff(i: nat)
    requires 1 <= i <= 255
    ensures GflogBase(Gff(i)) == i
  {
    hide GflogBase, Xtime;
    GffStep(i - 1);
    if i == 1 {
      SecondEntry();
    } else {
      GflogBaseGff(i - 1);
      DoubleFollows(Gff(i - 1));
    }
  }

  lemma SecondEntry()
    ensures GflogBase(Gff(1)) == 1 && GflogBase(0) == 0
  {
    GffStep(0);
    assert Xtime(1) == 2;
  }

  /** The literal table is the one that mk_gf_field builds, so its entries are the logarithms that gf_mul and gf_inv need. */
  lemma GflogMatchesHeader(b: bv8)
    ensures GflogBase(b) == Gflog(b)
  {
    hide GflogBase, Gff, Gflog;
    SecondEntry();
    LogZero();
    if b != 0 {
      GffGflog(b);
      GflogBaseGff(Gflog(b));
    }
  }

  lemma LogZero()
    ensures Gflog(0) == 0
  {}

  // ---------- gf_mul and gf_inv on the literal tables ----------

  function GffBase(i: int): bv8
    requires 0 <= i <= 255
  {
    GffRow(i / 10)[i % 10]
  }

  lemma GflogBounds(b: bv8)
    ensures 0 <= GflogBase(b) <= 255
  {
    hide GflogBase, Gff, Gflog;
    GflogMatchesHeader(b);
    LogZero();
    if b != 0 {
      GffGflog(b);
    }
  }

  function TableMul(a: bv8, b: bv8): bv8 {
    if a == 0 || b == 0 then 0
    else
      GflogBounds(a);
      GflogBounds(b);
      var i := GflogBase(a) + GflogBase(b);
      GffBase(if i > 254 then i - 255 else i)
  }

  function TableInv(a: bv8): bv8 {
    if a == 0 then 0
    else
      GflogBounds(a);
      GffBase(255 - GflogBase(a))
  }

  /** The look-ups of gf_mul give the product of polynomials. */
  lemma TableMulIsMul(a: bv8, b: bv8)
    ensures TableMul(a, b) == Mul(a, b)
  {
    hide GflogBase, GffRow, Gff, Gflog, Mul;
    GfMulIsMul(a, b);
    GflogMatchesHeader(a);
    GflogMatchesHeader(b);
    GflogBounds(a);
    GflogBounds(b);
    var i := GflogBase(a) + GflogBase(b);
    GffMatchesHeader(if i > 254 then i - 255 else i);
  }

  /** The look-up of gf_inv gives the inverse, and 0 for 0. */
  lemma TableInvIsInverse(a: bv8)
    ensures TableInv(a) == GfInv(a)
    ensures if a == 0 then TableInv(a) == 0 else Mul(a, TableInv(a)) == 1
  {
    hide GflogBase, GffRow, Gff, Gflog, Mul;
    if a != 0 {
      GfInvIsInverse(a);
      GflogMatchesHeader(a);
      GflogBounds(a);
      GffMatchesHeader(255 - GflogBase(a));
    }
  }
}
