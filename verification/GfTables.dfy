/** Logarithm tables: x = 2 generates every nonzero byte, so a product is a sum of exponents. */
module GfTables {
  import opened GaloisField

  // ---------- The antilog table ----------

  /** Entry i of the table that mk_gf_field builds: x multiplied by itself i times. */
  function Gff(i: nat): bv8 {
    if i == 0 then 1 else Xtime(Gff(i - 1))
  }

  lemma {:induction false} GffAdd(i: nat, j: nat)
    ensures Gff(i + j) == Mul(Gff(i), Gff(j))
  {
    hide Xtime, Mul;
    if i == 0 {
      MulOne(Gff(j));
    } else {
      GffAdd(i - 1, j);
      MulComm(Gff(i), Gff(j));
      MulComm(Gff(i - 1), Gff(j));
      MulXtime(Gff(j), Gff(i - 1));
    }
  }

  /** The literal table gff_base of ec_base.h, ten entries a row as it is laid out there. */
  function GffRow(r: int): (row: seq<bv8>)
    requires 0 <= r <= 25
    ensures |row| == if r == 25 then 6 else 10
  {
    match r
    case 0 => [0x01, 0x02, 0x04, 0x08, 0x10, 0x20, 0x40, 0x80, 0x1d, 0x3a]
    case 1 => [0x74, 0xe8, 0xcd, 0x87, 0x13, 0x26, 0x4c, 0x98, 0x2d, 0x5a]
    case 2 => [0xb4, 0x75, 0xea, 0xc9, 0x8f, 0x03, 0x06, 0x0c, 0x18, 0x30]
    case 3 => [0x60, 0xc0, 0x9d, 0x27, 0x4e, 0x9c, 0x25, 0x4a, 0x94, 0x35]
    case 4 => [0x6a, 0xd4, 0xb5, 0x77, 0xee, 0xc1, 0x9f, 0x23, 0x46, 0x8c]
    case 5 => [0x05, 0x0a, 0x14, 0x28, 0x50, 0xa0, 0x5d, 0xba, 0x69, 0xd2]
    case 6 => [0xb9, 0x6f, 0xde, 0xa1, 0x5f, 0xbe, 0x61, 0xc2, 0x99, 0x2f]
    case 7 => [0x5e, 0xbc, 0x65, 0xca, 0x89, 0x0f, 0x1e, 0x3c, 0x78, 0xf0]
    case 8 => [0xfd, 0xe7, 0xd3, 0xbb, 0x6b, 0xd6, 0xb1, 0x7f, 0xfe, 0xe1]
    case 9 => [0xdf, 0xa3, 0x5b, 0xb6, 0x71, 0xe2, 0xd9, 0xaf, 0x43, 0x86]
    case 10 => [0x11, 0x22, 0x44, 0x88, 0x0d, 0x1a, 0x34, 0x68, 0xd0, 0xbd]
    case 11 => [0x67, 0xce, 0x81, 0x1f, 0x3e, 0x7c, 0xf8, 0xed, 0xc7, 0x93]
    case 12 => [0x3b, 0x76, 0xec, 0xc5, 0x97, 0x33, 0x66, 0xcc, 0x85, 0x17]
    case 13 => [0x2e, 0x5c, 0xb8, 0x6d, 0xda, 0xa9, 0x4f, 0x9e, 0x21, 0x42]
    case 14 => [0x84, 0x15, 0x2a, 0x54, 0xa8, 0x4d, 0x9a, 0x29, 0x52, 0xa4]
    case 15 => [0x55, 0xaa, 0x49, 0x92, 0x39, 0x72, 0xe4, 0xd5, 0xb7, 0x73]
    case 16 => [0xe6, 0xd1, 0xbf, 0x63, 0xc6, 0x91, 0x3f, 0x7e, 0xfc, 0xe5]
    case 17 => [0xd7, 0xb3, 0x7b, 0xf6, 0xf1, 0xff, 0xe3, 0xdb, 0xab, 0x4b]
    case 18 => [0x96, 0x31, 0x62, 0xc4, 0x95, 0x37, 0x6e, 0xdc, 0xa5, 0x57]
    case 19 => [0xae, 0x41, 0x82, 0x19, 0x32, 0x64, 0xc8, 0x8d, 0x07, 0x0e]
    case 20 => [0x1c, 0x38, 0x70, 0xe0, 0xdd, 0xa7, 0x53, 0xa6, 0x51, 0xa2]
    case 21 => [0x59, 0xb2, 0x79, 0xf2, 0xf9, 0xef, 0xc3, 0x9b, 0x2b, 0x56]
    case 22 => [0xac, 0x45, 0x8a, 0x09, 0x12, 0x24, 0x48, 0x90, 0x3d, 0x7a]
    case 23 => [0xf4, 0xf5, 0xf7, 0xf3, 0xfb, 0xeb, 0xcb, 0x8b, 0x0b, 0x16]
    case 24 => [0x2c, 0x58, 0xb0, 0x7d, 0xfa, 0xe9, 0xcf, 0x83, 0x1b, 0x36]
    case _ => [0x6c, 0xd8, 0xad, 0x47, 0x8e, 0x01]
  }

  /** Ten successive doublings, ending in `next`, none of which starts from 1 except the first. */
  predicate Doubles(row: seq<bv8>, next: bv8)
    requires |row| == 10
  {
    && Xtime(row[0]) == row[1] && Xtime(row[1]) == row[2] && Xtime(row[2]) == row[3] && Xtime(row[3]) == row[4]
    && Xtime(row[4]) == row[5] && Xtime(row[5]) == row[6] && Xtime(row[6]) == row[7] && Xtime(row[7]) == row[8]
    && Xtime(row[8]) == row[9] && Xtime(row[9]) == next
    && row[1] != 1 && row[2] != 1 && row[3] != 1 && row[4] != 1 && row[5] != 1
    && row[6] != 1 && row[7] != 1 && row[8] != 1 && row[9] != 1 && next != 1
  }

  predicate RowDoubles(r: int)
    requires 0 <= r < 25
  {
    Doubles(GffRow(r), GffRow(r + 1)[0])
  }

  lemma RowsDouble(r: int)
    requires 0 <= r < 25
    ensures RowDoubles(r)
  {
    if r < 5 {
      RowsDouble0();
    } else if r < 10 {
      RowsDouble5();
    } else if r < 14 {
      RowsDouble10();
    } else if r < 18 {
      RowsDouble14();
    } else if r < 22 {
      RowsDouble18();
    } else {
      RowsDouble22();
    }
  }

  lemma RowsDouble0()
    ensures forall r | 0 <= r < 5 :: RowDoubles(r)
  {
    assert RowDoubles(0) && RowDoubles(1) && RowDoubles(2) && RowDoubles(3) && RowDoubles(4);
  }

  lemma RowsDouble5()
    ensures forall r | 5 <= r < 10 :: RowDoubles(r)
  {
    assert RowDoubles(5) && RowDoubles(6) && RowDoubles(7) && RowDoubles(8) && RowDoubles(9);
  }

  lemma RowsDouble10()
    ensures forall r | 10 <= r < 14 :: RowDoubles(r)
  {
    assert RowDoubles(10) && RowDoubles(11) && RowDoubles(12) && RowDoubles(13);
  }

  lemma RowsDouble14()
    ensures forall r | 14 <= r < 18 :: RowDoubles(r)
  {
    assert RowDoubles(14) && RowDoubles(15) && RowDoubles(16) && RowDoubles(17);
  }

  lemma RowsDouble18()
    ensures forall r | 18 <= r < 22 :: RowDoubles(r)
  {
    assert RowDoubles(18) && RowDoubles(19) && RowDoubles(20) && RowDoubles(21);
  }

  lemma RowsDouble22()
    ensures forall r | 22 <= r < 25 :: RowDoubles(r)
  {
    assert RowDoubles(22) && RowDoubles(23) && RowDoubles(24);
  }

  lemma DoublesAt(row: seq<bv8>, next: bv8, c: nat)
    requires |row| == 10 && c < 10 && Doubles(row, next)
    ensures Xtime(row[c]) == (row + [next])[c + 1] != 1
  {
    hide Xtime;
    assert (row + [next])[10] == next;
    if c == 0 || c == 1 || c == 2 || c == 3 || c == 4 {} else {}
  }

  /** The literal table is the generated one, and 1 comes back only after 255 doublings. */
  lemma {:induction false} GffMatchesHeader(i: nat)
    requires i < 256
    ensures GffRow(i / 10)[i % 10] == Gff(i)
    ensures 0 < i < 255 ==> Gff(i) != 1
    ensures i == 255 ==> Gff(i) == 1
  {
    hide GffRow, Xtime, Doubles;
    if i == 0 {
      FirstEntry();
    } else if i < 251 {
      var r, c := (i - 1) / 10, (i - 1) % 10;
      GffMatchesHeader(i - 1);
      RowsDouble(r);
      DoublesAt(GffRow(r), GffRow(r + 1)[0], c);
      assert i / 10 == (if c < 9 then r else r + 1) && i % 10 == (if c < 9 then c + 1 else 0);
    } else {
      GffMatchesHeader(i - 1);
      LastRow();
      assert i / 10 == 25 && i % 10 == i - 250 && (i - 1) / 10 == 25 && (i - 1) % 10 == i - 251;
    }
  }

  lemma FirstEntry()
    ensures GffRow(0)[0] == 1
  {}

  lemma LastRow()
    ensures var row := GffRow(25);
            && Xtime(row[0]) == row[1] && Xtime(row[1]) == row[2] && Xtime(row[2]) == row[3]
            && Xtime(row[3]) == row[4] && Xtime(row[4]) == row[5] && row[5] == 1
            && row[1] != 1 && row[2] != 1 && row[3] != 1 && row[4] != 1
  {}

  // ---------- Every nonzero byte is a power of x ----------

  lemma {:induction false} GffNonzero(i: nat)
    ensures Gff(i) != 0
  {
    if i == 0 {
    } else {
      GffNonzero(i - 1);
      XtimeNonzero(Gff(i - 1));
    }
  }

  lemma XtimeNonzero(a: bv8)
    requires a != 0
    ensures Xtime(a) != 0
  {
    if a & 0x80 != 0 {} else {}
  }

  lemma GffPeriod(i: nat)
    ensures Gff(i + 255) == Gff(i)
  {
    GffMatchesHeader(255);
    GffAdd(i, 255);
    MulOne(Gff(i));
  }

  lemma {:induction false} GffCancel(i: nat, j: nat)
    requires Gff(i) == Gff(i + j)
    ensures Gff(j) == 1
  {
    hide Mul, Xtime;
    // Gff(255 * i) == 1, so multiplying by Gff(254 * i) undoes Gff(i)
    GffMultiple(i);
    GffAdd(254 * i, i);
    GffAdd(254 * i, i + j);
    GffAdd(255 * i, j);
    assert 254 * i + (i + j) == 255 * i + j && 254 * i + i == 255 * i;
    MulOne(Gff(j));
  }

  lemma {:induction false} GffMultiple(i: nat)
    ensures Gff(255 * i) == 1
  {
    if i == 0 {
    } else {
      GffMultiple(i - 1);
      GffPeriod(255 * (i - 1));
      assert 255 * (i - 1) + 255 == 255 * i;
    }
  }

  /** The first n powers. */
  ghost function Powers(n: nat): set<bv8> {
    if n == 0 then {} else Powers(n - 1) + {Gff(n - 1)}
  }

  lemma {:induction false} ExponentOf(n: nat, a: bv8) returns (i: nat)
    requires a in Powers(n)
    ensures i < n && Gff(i) == a
  {
    hide Gff;
    if a == Gff(n - 1) {
      i := n - 1;
    } else {
      i := ExponentOf(n - 1, a);
    }
  }

  lemma {:induction false} PowersDistinct(n: nat)
    requires n <= 255
    ensures |Powers(n)| == n
  {
    hide Gff;
    if n == 0 {
    } else {
      PowersDistinct(n - 1);
      if Gff(n - 1) in Powers(n - 1) {
        var i := ExponentOf(n - 1, Gff(n - 1));
        GffCancel(i, n - 1 - i);
        GffMatchesHeader(n - 1 - i);
      }
    }
  }

  ghost function BytesBelow(n: nat): set<bv8>
    requires n <= 256
  {
    if n == 0 then {} else BytesBelow(n - 1) + {(n - 1) as bv8}
  }

  lemma {:induction false} BytesBelowSize(n: nat)
    requires n <= 256
    ensures |BytesBelow(n)| <= n
  {
    if n == 0 {
    } else {
      BytesBelowSize(n - 1);
    }
  }

  lemma {:induction false} InBytesBelow(n: nat, a: bv8)
    requires a as int < n <= 256
    ensures a in BytesBelow(n)
  {
    if a as int == n - 1 {
      assert (a as int) as bv8 == a;
    } else {
      InBytesBelow(n - 1, a);
    }
  }

  lemma {:induction false} SubsetSize<T>(s: set<T>, t: set<T>)
    requires s <= t
    ensures |s| <= |t|
  {
    if s != {} {
      var x :| x in s;
      SubsetSize(s - {x}, t - {x});
    }
  }

  /** x generates the multiplicative group: 255 distinct powers leave no other nonzero byte. */
  lemma PowersCover(a: bv8)
    requires a != 0
    ensures exists i :: 0 <= i < 255 && Gff(i) == a
  {
    hide Gff, Powers, BytesBelow;
    if a in Powers(255) {
      var i := ExponentOf(255, a);
    } else {
      if 0 in Powers(255) {
        var i := ExponentOf(255, 0);
        GffNonzero(i);
      }
      PowersDistinct(255);
      var two := {a, 0};
      assert |two| == 2;
      assert Powers(255) !! two;
      assert |Powers(255) + two| == |Powers(255)| + |two|;
      forall b | b in Powers(255) + two ensures b in BytesBelow(256) {
        InBytesBelow(256, b);
      }
      SubsetSize(Powers(255) + two, BytesBelow(256));
      BytesBelowSize(256);
    }
  }

  // ---------- The logarithm table, products and inverses ----------

  /** The first exponent from i on that yields `a`, or 255. */
  function LogFrom(a: bv8, i: nat): (r: nat)
    requires i <= 255
    ensures i <= r <= 255
    decreases 255 - i
  {
    if i == 255 || Gff(i) == a then i else LogFrom(a, i + 1)
  }

  /** Entry `a` of the logarithm table. 1 has logarithm 255: mk_gf_field writes it last for exponent 255. */
  function Gflog(a: bv8): nat {
    if a == 0 then 0 else LogFrom(a, 1)
  }

  lemma {:induction false} LogFromHits(a: bv8, i: nat, n: nat)
    requires i <= n <= 255 && Gff(n) == a
    ensures Gff(LogFrom(a, i)) == a
    decreases n - i
  {
    hide Gff;
    if i == n {
    } else {
      LogFromHits(a, i + 1, n);
    }
  }

  lemma GffGflog(a: bv8)
    requires a != 0
    ensures 1 <= Gflog(a) <= 255 && Gff(Gflog(a)) == a
  {
    hide Gff;
    PowersCover(a);
    var i :| 0 <= i < 255 && Gff(i) == a;
    GffPeriod(0);
    LogFromHits(a, 1, if i == 0 then 255 else i);
  }

  lemma GflogGff(i: nat)
    requires 1 <= i <= 255
    ensures Gflog(Gff(i)) == i
  {
    GffNonzero(i);
    GffGflog(Gff(i));
    var j := Gflog(Gff(i));
    hide Gff;
    if j < i {
      GffCancel(j, i - j);
      GffMatchesHeader(i - j);
    } else if i < j {
      GffCancel(i, j - i);
      GffMatchesHeader(j - i);
    }
  }

  function GfMul(a: bv8, b: bv8): bv8 {
    if a == 0 || b == 0 then 0
    else
      var i := Gflog(a) + Gflog(b);
      Gff(if i > 254 then i - 255 else i)
  }

  function GfInv(a: bv8): bv8 {
    if a == 0 then 0
    else
      assert Gflog(a) <= 255;
      Gff(255 - Gflog(a))
  }

  lemma GfMulIsMul(a: bv8, b: bv8)
    ensures GfMul(a, b) == Mul(a, b)
  {
    hide Gff, Gflog, Mul;
    if a == 0 || b == 0 {
      MulZero(a);
      MulZero(b);
    } else {
      GffGflog(a);
      GffGflog(b);
      var i := Gflog(a) + Gflog(b);
      GffAdd(Gflog(a), Gflog(b));
      if i > 254 {
        GffPeriod(i - 255);
      }
    }
  }

  lemma GfInvIsInverse(a: bv8)
    requires a != 0
    ensures Mul(a, GfInv(a)) == 1 && Mul(GfInv(a), a) == 1
    ensures GfInv(a) != 0
  {
    hide Gff, Gflog, Mul;
    GffGflog(a);
    GffAdd(Gflog(a), 255 - Gflog(a));
    GffMatchesHeader(255);
    MulComm(a, GfInv(a));
    MulZero(a);
  }

  lemma MulCancel(a: bv8, b: bv8)
    requires a != 0
    ensures Mul(GfInv(a), Mul(a, b)) == b
    ensures Mul(a, b) == 0 <==> b == 0
  {
    hide Mul, GfInv;
    GfInvIsInverse(a);
    MulAssoc(GfInv(a), a, b);
    MulOne(b);
    MulZero(a);
    MulZero(GfInv(a));
  }

  // ---------- Building the tables ----------

  ghost predicate IsLogTable(gflog: seq<int>) {
    |gflog| == 256 && forall a: bv8 :: gflog[a as int] == Gflog(a)
  }

  method MkGfField(gff: array<bv8>, gflog: array<int>)
    requires gff.Length == 256 && gflog.Length == 256 && gff != gflog as object
    modifies gff, gflog
    ensures forall i | 0 <= i < 256 :: gff[i] == Gff(i)
    ensures IsLogTable(gflog[..])
  {
    hide Gff, Gflog, Xtime, IsLogTable;
    var s: bv8 := 1;
    gflog[0] := 0;
    GffStep(0);
    for i := 0 to 256
      invariant s == Gff(i)
      invariant forall j | 0 <= j < i :: gff[j] == Gff(j)
      invariant gflog[0] == 0
      invariant forall j | 1 <= j < i :: gflog[Gff(j) as int] == j
    {
      SlotsDiffer(i);
      gff[i] := s;
      gflog[s as int] := i;
      GffStep(i);
      s := Xtime(s);
    }
    LogTableIsGflog(gflog[..]);
  }

  lemma GffStep(i: nat)
    ensures Gff(0) == 1 && Gff(i + 1) == Xtime(Gff(i))
  {}

  lemma SlotsDiffer(i: nat)
    requires i < 256
    ensures Gff(i) as int != 0
    ensures forall j | 1 <= j < i :: Gff(j) as int != Gff(i) as int
  {
    hide Gff, Gflog;
    GffNonzero(i);
    SameByte(Gff(i), 0);
    forall j | 1 <= j < i ensures Gff(j) as int != Gff(i) as int {
      GflogGff(i);
      GflogGff(j);
      SameByte(Gff(j), Gff(i));
    }
  }

  lemma LogTableIsGflog(gflog: seq<int>)
    requires |gflog| == 256 && gflog[0] == 0
    requires forall j | 1 <= j < 256 :: gflog[Gff(j) as int] == j
    ensures IsLogTable(gflog)
  {
    hide Gff;
    forall a: bv8 ensures gflog[a as int] == Gflog(a) {
      if a != 0 {
        GffGflog(a);
      }
    }
  }

  lemma SameByte(a: bv8, b: bv8)
    ensures a as int == b as int <==> a == b
  {
    assert (a as int) as bv8 == a && (b as int) as bv8 == b;
  }
}
