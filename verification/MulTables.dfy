/** The 32-byte multiplication tables that the vector kernels look up: products with every low and every high nibble. */
module MulTables {
  import opened GaloisField
  import opened Matrices
  import opened GaussJordan

  /** The operand that entry i of a table stands for: 00 .. 0f, then 00, 10 .. f0. */
  function Operand(i: nat): bv8
    requires i < 32
  {
    if i < 16 then i as bv8 else ((i - 16) as bv8) << 4
  }

  function MulTable(c: bv8): (t: seq<bv8>)
    ensures |t| == 32
  {
    seq(32, i requires 0 <= i < 32 => Mul(c, Operand(i)))
  }

  /** Two look-ups and one addition multiply any byte. */
  lemma NibbleLookup(c: bv8, x: bv8)
    ensures (x & 0x0f) as int < 16 && (x >> 4) as int < 16
    ensures Xor(MulTable(c)[(x & 0x0f) as int], MulTable(c)[16 + (x >> 4) as int]) == Mul(c, x)
  {
    NibbleValues(x);
    hide Mul, Xor, Operand;
    MulXor(c, x & 0x0f, (x >> 4) << 4);
    assert x == Xor(x & 0x0f, (x >> 4) << 4) by { NibbleSplit(x); }
  }

  lemma NibbleSplit(x: bv8)
    ensures x == Xor(x & 0x0f, (x >> 4) << 4)
  {
    assert x == (x & 0x0f) ^ ((x >> 4) << 4);
  }

  lemma NibbleValues(x: bv8)
    ensures (x & 0x0f) as int < 16 && Operand((x & 0x0f) as int) == x & 0x0f
    ensures (x >> 4) as int < 16 && Operand(16 + (x >> 4) as int) == (x >> 4) << 4
  {
    var lo, hi := x & 0x0f, x >> 4;
    assert lo < 16 && hi < 16;
    assert (lo as int) as bv8 == lo && (hi as int) as bv8 == hi;
  }

  lemma SecondEntry(c: bv8)
    ensures MulTable(c)[1] == c
  {
    hide Mul;
    MulOne(c);
  }

  // ---------- The byte-by-byte branch of gf_vect_mul_init ----------

  /** Multiples 0 .. 15 of an element, from the element and its three doublings. */
  function Sixteen(c: bv8): (t: seq<bv8>)
    ensures |t| == 16
  {
    var c2 := Xtime(c);
    var c4 := Xtime(c2);
    var c8 := Xtime(c4);
    var c3, c5, c6 := Xor(c2, c), Xor(c4, c), Xor(c4, c2);
    var c7 := Xor(c4, c3);
    [0, c, c2, c3, c4, c5, c6, c7] +
    [c8, Xor(c8, c), Xor(c8, c2), Xor(c8, c3), Xor(c8, c4), Xor(c8, c5), Xor(c8, c6), Xor(c8, c7)]
  }

  function ByteTable(c: bv8): (t: seq<bv8>)
    ensures |t| == 32
  {
    Sixteen(c) + Sixteen(Xtime(Xtime(Xtime(Xtime(c)))))
  }

  /** A table extended by the sums of its entries with d. */
  function Doubled(t: Vector, d: bv8): (t': Vector)
    ensures |t'| == 2 * |t|
  {
    t + seq(|t|, i requires 0 <= i < |t| => Xor(d, t[i]))
  }

  function Multiples(c: bv8): (t: Vector)
    ensures |t| == 16
  {
    Doubled(Doubled(Doubled([0, c], Xtime(c)), Xtime(Xtime(c))), Xtime(Xtime(Xtime(c))))
  }

  lemma DoubledTwo(a: bv8, b: bv8, d: bv8)
    ensures Doubled([a, b], d) == [a, b, Xor(d, a), Xor(d, b)]
  {
    hide Xor;
  }

  lemma DoubledFour(a: bv8, b: bv8, c: bv8, e: bv8, d: bv8)
    ensures Doubled([a, b, c, e], d) == [a, b, c, e, Xor(d, a), Xor(d, b), Xor(d, c), Xor(d, e)]
  {
    hide Xor;
  }

  lemma DoubledEight(t: Vector, d: bv8)
    requires |t| == 8
    ensures Doubled(t, d) == t + [Xor(d, t[0]), Xor(d, t[1]), Xor(d, t[2]), Xor(d, t[3]),
                                  Xor(d, t[4]), Xor(d, t[5]), Xor(d, t[6]), Xor(d, t[7])]
  {
    hide Xor;
  }

  lemma SixteenIsMultiples(c: bv8)
    ensures Sixteen(c) == Multiples(c)
  {
    hide Xor, Xtime, Doubled;
    var c2 := Xtime(c);
    var c4 := Xtime(c2);
    var c8 := Xtime(c4);
    XorLaws(c2, 0);
    XorLaws(c4, 0);
    XorLaws(c8, 0);
    DoubledTwo(0, c, c2);
    var c3 := Xor(c2, c);
    DoubledFour(0, c, c2, c3, c4);
    var t := [0, c, c2, c3, c4, Xor(c4, c), Xor(c4, c2), Xor(c4, c3)];
    DoubledEight(t, c8);
    assert Sixteen(c) == Doubled(t, c8);
  }

  lemma DoubledLinear(c: bv8, t: Vector, t': Vector, d: bv8)
    requires |t'| == |t| && forall i | 0 <= i < |t| :: t'[i] == Mul(c, t[i])
    ensures forall i | 0 <= i < 2 * |t| :: Doubled(t', Mul(c, d))[i] == Mul(c, Doubled(t, d)[i])
  {
    hide Mul, Xor;
    forall i | 0 <= i < 2 * |t| ensures Doubled(t', Mul(c, d))[i] == Mul(c, Doubled(t, d)[i]) {
      if i >= |t| {
        MulXor(c, d, t[i - |t|]);
      }
    }
  }

  /** Multiplying by c maps the multiples of u to those of c u. */
  lemma MultiplesLinear(c: bv8, u: bv8)
    ensures forall i | 0 <= i < 16 :: Multiples(Mul(c, u))[i] == Mul(c, Multiples(u)[i])
  {
    hide Mul, Xor, Xtime, Doubled;
    MulZero(c);
    MulXtime(c, u);
    MulXtime(c, Xtime(u));
    MulXtime(c, Xtime(Xtime(u)));
    var p := Mul(c, u);
    var t1, t1' := Doubled([0, u], Xtime(u)), Doubled([0, p], Xtime(p));
    DoubledLinear(c, [0, u], [0, p], Xtime(u));
    var t2, t2' := Doubled(t1, Xtime(Xtime(u))), Doubled(t1', Xtime(Xtime(p)));
    DoubledLinear(c, t1, t1', Xtime(Xtime(u)));
    DoubledLinear(c, t2, t2', Xtime(Xtime(Xtime(u))));
  }

  lemma MultiplesOfOne()
    ensures Sixteen(1) == [0, 1, 2, 3, 4, 5, 6, 7, 8, 9, 10, 11, 12, 13, 14, 15]
  {}

  lemma MultiplesOfSixteen()
    ensures Sixteen(0x10) == [0, 0x10, 0x20, 0x30, 0x40, 0x50, 0x60, 0x70, 0x80, 0x90, 0xa0, 0xb0, 0xc0, 0xd0, 0xe0, 0xf0]
  {}

  function Operands(from: nat): (operands: seq<bv8>)
    requires from <= 16
    ensures |operands| == 16 && forall i | 0 <= i < 16 :: operands[i] == Operand(from + i)
  {
    seq(16, i requires 0 <= i < 16 => Operand(from + i))
  }

  lemma OperandsAreMultiples()
    ensures Operands(0) == Sixteen(1) && Operands(16) == Sixteen(0x10)
  {
    hide Sixteen;
    MultiplesOfOne();
    MultiplesOfSixteen();
  }

  lemma ByteTableIsMulTable(c: bv8)
    ensures ByteTable(c) == MulTable(c)
  {
    ByTen(c);
    hide Mul, Xor, Xtime, Operand, Sixteen, Multiples;
    MulOne(c);
    OperandsAreMultiples();
    SixteenIsMultiples(c);
    SixteenIsMultiples(Mul(c, 0x10));
    SixteenIsMultiples(1);
    SixteenIsMultiples(0x10);
    MultiplesLinear(c, 1);
    MultiplesLinear(c, 0x10);
    forall i | 0 <= i < 32 ensures ByteTable(c)[i] == MulTable(c)[i] {
      if i < 16 {
        assert Multiples(1)[i] == Operands(0)[i];
      } else {
        assert Multiples(0x10)[i - 16] == Operands(16)[i - 16];
      }
    }
  }

  lemma ByTen(c: bv8)
    ensures Mul(c, 0x10) == Xtime(Xtime(Xtime(Xtime(c))))
  {
    assert Xtime(1) == 2 && Xtime(2) == 4 && Xtime(4) == 8 && Xtime(8) == 0x10;
    hide Mul, Xtime;
    MulOne(c);
    MulXtime(c, 1);
    MulXtime(c, 2);
    MulXtime(c, 4);
    MulXtime(c, 8);
  }

  // ---------- The packed 64-bit branch ----------

  function ByteOf(w: bv64, i: nat): bv8
    requires i < 8
  {
    match i
    case 0 => (w & 0xff) as bv8
    case 1 => ((w >> 8) & 0xff) as bv8
    case 2 => ((w >> 16) & 0xff) as bv8
    case 3 => ((w >> 24) & 0xff) as bv8
    case 4 => ((w >> 32) & 0xff) as bv8
    case 5 => ((w >> 40) & 0xff) as bv8
    case 6 => ((w >> 48) & 0xff) as bv8
    case _ => ((w >> 56) & 0xff) as bv8
  }

  /** The eight bytes of a word in memory order. */
  function LittleEndian(w: bv64): (bytes: seq<bv8>)
    ensures |bytes| == 8
  {
    seq(8, i requires 0 <= i < 8 => ByteOf(w, i))
  }

  function Xor64(v: bv64, w: bv64): bv64 { v ^ w }

  function Spread1(c: bv8): bv64 { c as bv64 * 0x0100010001000100 }

  function Spread2(c: bv8): bv64 { c as bv64 * 0x0101000001010000 }

  function Spread4(c: bv8): bv64 { c as bv64 * 0x0101010100000000 }

  function Spread8(c: bv8): bv64 { c as bv64 * 0x0101010101010101 }

  /** The two words stored for an element: its multiples 0 .. 7, and 8 .. 15. */
  function LowWord(c: bv8): bv64 {
    Xor64(Xor64(Spread1(c), Spread2(Xtime(c))), Spread4(Xtime(Xtime(c))))
  }

  function HighWord(c: bv8): bv64 {
    Xor64(Spread8(Xtime(Xtime(Xtime(c)))), LowWord(c))
  }

  function PackedTable(c: bv8): (t: seq<bv8>)
    ensures |t| == 32
  {
    var c17 := Xtime(Xtime(Xtime(Xtime(c))));
    LittleEndian(LowWord(c)) + LittleEndian(HighWord(c)) + LittleEndian(LowWord(c17)) + LittleEndian(HighWord(c17))
  }

  lemma XorByte0(v: bv64, w: bv64)
    ensures ByteOf(Xor64(v, w), 0) == Xor(ByteOf(v, 0), ByteOf(w, 0))
  {}

  lemma XorByte1(v: bv64, w: bv64)
    ensures ByteOf(Xor64(v, w), 1) == Xor(ByteOf(v, 1), ByteOf(w, 1))
  {}

  lemma XorByte2(v: bv64, w: bv64)
    ensures ByteOf(Xor64(v, w), 2) == Xor(ByteOf(v, 2), ByteOf(w, 2))
  {}

  lemma XorByte3(v: bv64, w: bv64)
    ensures ByteOf(Xor64(v, w), 3) == Xor(ByteOf(v, 3), ByteOf(w, 3))
  {}

  lemma XorByte4(v: bv64, w: bv64)
    ensures ByteOf(Xor64(v, w), 4) == Xor(ByteOf(v, 4), ByteOf(w, 4))
  {}

  lemma XorByte5(v: bv64, w: bv64)
    ensures ByteOf(Xor64(v, w), 5) == Xor(ByteOf(v, 5), ByteOf(w, 5))
  {}

  lemma XorByte6(v: bv64, w: bv64)
    ensures ByteOf(Xor64(v, w), 6) == Xor(ByteOf(v, 6), ByteOf(w, 6))
  {}

  lemma XorByte7(v: bv64, w: bv64)
    ensures ByteOf(Xor64(v, w), 7) == Xor(ByteOf(v, 7), ByteOf(w, 7))
  {}

  lemma XorBytes(v: bv64, w: bv64)
    ensures forall i | 0 <= i < 8 :: ByteOf(Xor64(v, w), i) == Xor(ByteOf(v, i), ByteOf(w, i))
  {
    hide ByteOf, Xor64, Xor;
    XorByte0(v, w);
    XorByte1(v, w);
    XorByte2(v, w);
    XorByte3(v, w);
    XorByte4(v, w);
    XorByte5(v, w);
    XorByte6(v, w);
    XorByte7(v, w);
  }

  lemma SpreadBytes1(c: bv8)
    ensures forall i | 0 <= i < 8 :: ByteOf(Spread1(c), i) == if i % 2 == 1 then c else 0
  {}

  lemma SpreadBytes2(c: bv8)
    ensures forall i | 0 <= i < 8 :: ByteOf(Spread2(c), i) == if i % 4 >= 2 then c else 0
  {}

  lemma SpreadBytes4(c: bv8)
    ensures forall i | 0 <= i < 8 :: ByteOf(Spread4(c), i) == if i >= 4 then c else 0
  {}

  lemma SpreadBytes8(c: bv8)
    ensures forall i | 0 <= i < 8 :: ByteOf(Spread8(c), i) == c
  {}

  lemma LowWordBytes(c: bv8)
    ensures var t, w := Sixteen(c), LowWord(c);
            && ByteOf(w, 0) == t[0] && ByteOf(w, 1) == t[1] && ByteOf(w, 2) == t[2] && ByteOf(w, 3) == t[3]
            && ByteOf(w, 4) == t[4] && ByteOf(w, 5) == t[5] && ByteOf(w, 6) == t[6] && ByteOf(w, 7) == t[7]
  {
    hide Xor, Xtime, ByteOf, Xor64, Spread1, Spread2, Spread4;
    var c2 := Xtime(c);
    var c4 := Xtime(c2);
    var c3 := Xor(c2, c);
    SpreadBytes1(c);
    SpreadBytes2(c2);
    SpreadBytes4(c4);
    XorBytes(Spread1(c), Spread2(c2));
    XorBytes(Xor64(Spread1(c), Spread2(c2)), Spread4(c4));
    XorLaws(c, c2);
    XorLaws(c2, 0);
    XorLaws(c3, 0);
    XorLaws(c4, c);
    XorLaws(c4, c2);
    XorLaws(c4, c3);
    XorLaws(0, 0);
  }

  lemma SixteenHalves(c: bv8)
    ensures forall i | 0 <= i < 8 :: Sixteen(c)[8 + i] == Xor(Xtime(Xtime(Xtime(c))), Sixteen(c)[i])
  {
    SixteenIsMultiples(c);
    hide Sixteen, Xor, Xtime;
  }

  lemma PackedHalf(c: bv8)
    ensures LittleEndian(LowWord(c)) + LittleEndian(HighWord(c)) == Sixteen(c)
  {
    var c8 := Xtime(Xtime(Xtime(c)));
    LowWordBytes(c);
    SixteenHalves(c);
    SpreadBytes8(c8);
    XorBytes(Spread8(c8), LowWord(c));
    hide Sixteen, ByteOf, LowWord, Xor, Xtime, Xor64, Spread8;
    forall i | 0 <= i < 8 ensures ByteOf(LowWord(c), i) == Sixteen(c)[i] {
      if i < 4 {
        if i < 2 { if i == 0 {} else {} } else { if i == 2 {} else {} }
      } else {
        if i < 6 { if i == 4 {} else {} } else { if i == 6 {} else {} }
      }
    }
    forall i | 8 <= i < 16 ensures ByteOf(HighWord(c), i - 8) == Sixteen(c)[i] {
      assert Sixteen(c)[8 + (i - 8)] == Xor(c8, Sixteen(c)[i - 8]);
    }
  }

  /** Both branches of gf_vect_mul_init fill in the same 32 bytes. */
  lemma PackedTableIsMulTable(c: bv8)
    ensures PackedTable(c) == ByteTable(c) == MulTable(c)
  {
    ByteTableIsMulTable(c);
    hide Mul, Xor, Xtime, LittleEndian, LowWord, HighWord, Sixteen;
    var c17 := Xtime(Xtime(Xtime(Xtime(c))));
    PackedHalf(c);
    PackedHalf(c17);
    assert PackedTable(c) == (LittleEndian(LowWord(c)) + LittleEndian(HighWord(c)))
                           + (LittleEndian(LowWord(c17)) + LittleEndian(HighWord(c17)));
  }

  // ---------- The tables of a coefficient matrix ----------

  /** Where the table of coefficient (l, j) starts. */
  function TableOffset(k: nat, l: nat, j: nat): nat { 32 * (l * k + j) }

  ghost predicate TableAt(g: seq<bv8>, off: nat, c: bv8) {
    off + 32 <= |g| && g[off..off + 32] == MulTable(c)
  }

  /** The tables of the first i rows and of the first j coefficients of row i are in place. */
  ghost predicate TablesUpTo(g: seq<bv8>, coefs: Matrix, k: nat, i: nat, j: nat)
    requires IsMatrix(coefs, |coefs|, k) && j <= k && i <= |coefs| && (i < |coefs| || j == 0)
  {
    forall l, c | 0 <= l < |coefs| && 0 <= c < k && (l < i || (l == i && c < j)) ::
      TableAt(g, TableOffset(k, l, c), coefs[l][c])
  }

  ghost predicate HoldsTables(g: seq<bv8>, coefs: Matrix, k: nat)
    requires IsMatrix(coefs, |coefs|, k)
  {
    TablesUpTo(g, coefs, k, |coefs|, 0)
  }

  lemma OffsetOrder(k: nat, l: nat, c: nat, i: nat, j: nat)
    requires c < k && (l < i || (l == i && c < j))
    ensures TableOffset(k, l, c) + 32 <= TableOffset(k, i, j)
  {
    if l < i {
      assert l * k + k == (l + 1) * k <= i * k;
    }
  }

  lemma OffsetFits(k: nat, rows: nat, i: nat, j: nat)
    requires i < rows && j < k
    ensures TableOffset(k, i, j) + 32 <= 32 * (rows * k)
  {
    assert i * k + k == (i + 1) * k <= rows * k;
  }

  lemma TablesStep(g: seq<bv8>, g': seq<bv8>, coefs: Matrix, k: nat, i: nat, j: nat)
    requires IsMatrix(coefs, |coefs|, k) && i < |coefs| && j < k
    requires TablesUpTo(g, coefs, k, i, j)
    requires |g'| == |g| && TableOffset(k, i, j) + 32 <= |g|
    requires g'[..TableOffset(k, i, j)] == g[..TableOffset(k, i, j)]
    requires TableAt(g', TableOffset(k, i, j), coefs[i][j])
    ensures TablesUpTo(g', coefs, k, i, j + 1)
  {
    hide MulTable, TableOffset;
    var p := TableOffset(k, i, j);
    forall l, c | 0 <= l < |coefs| && 0 <= c < k && (l < i || (l == i && c < j + 1))
      ensures TableAt(g', TableOffset(k, l, c), coefs[l][c])
    {
      if l < i || c < j {
        OffsetOrder(k, l, c, i, j);
        var q := TableOffset(k, l, c);
        assert TableAt(g, q, coefs[l][c]);
        assert g'[q..q + 32] == g'[..p][q..q + 32] == g[..p][q..q + 32] == g[q..q + 32];
      }
    }
  }

  method GfVectMulInit(c: bv8, tbl: array<bv8>, off: nat)
    requires off + 32 <= tbl.Length
    modifies tbl
    ensures tbl[..] == old(tbl[..off]) + MulTable(c) + old(tbl[off + 32..])
  {
    hide MulTable, PackedTable;
    var t := PackedTable(c);
    PackedTableIsMulTable(c);
    forall i | 0 <= i < 32 {
      tbl[off + i] := t[i];
    }
  }

  /** ec_init_tables on the rows of `a` from row `top` on. */
  method EcInitTables(k: nat, rows: nat, a: array2<bv8>, top: nat, gTbls: array<bv8>)
    requires a.Length1 == k && top + rows <= a.Length0 && gTbls.Length >= 32 * (rows * k)
    modifies gTbls
    ensures HoldsTables(gTbls[..], Rows(a)[top..top + rows], k)
    ensures gTbls[32 * (rows * k)..] == old(gTbls[32 * (rows * k)..])
  {
    hide MulTable, TablesUpTo, Rows;
    ghost var coefs := Rows(a)[top..top + rows];
    StartTables(gTbls[..], coefs, k);
    var p := 0;
    for i := 0 to rows
      invariant p == TableOffset(k, i, 0) <= gTbls.Length && gTbls[p..] == old(gTbls[..])[p..]
      invariant TablesUpTo(gTbls[..], coefs, k, i, 0)
    {
      for j := 0 to k
        invariant p == TableOffset(k, i, j) <= gTbls.Length && gTbls[p..] == old(gTbls[..])[p..]
        invariant TablesUpTo(gTbls[..], coefs, k, i, j)
      {
        OffsetFits(k, rows, i, j);
        ghost var g := gTbls[..];
        GfVectMulInit(a[top + i, j], gTbls, p);
        assert gTbls[..][..p] == g[..p] && gTbls[..][p..p + 32] == MulTable(coefs[i][j]);
        TablesStep(g, gTbls[..], coefs, k, i, j);
        assert gTbls[p + 32..] == gTbls[..][p + 32..] == g[p + 32..] == g[p..][32..];
        p := p + 32;
      }
      RowDone(gTbls[..], coefs, k, i);
      assert (i + 1) * k == i * k + k;
    }
  }

  lemma StartTables(g: seq<bv8>, coefs: Matrix, k: nat)
    requires IsMatrix(coefs, |coefs|, k)
    ensures TablesUpTo(g, coefs, k, 0, 0)
  {}

  lemma RowDone(g: seq<bv8>, coefs: Matrix, k: nat, i: nat)
    requires IsMatrix(coefs, |coefs|, k) && i < |coefs| && TablesUpTo(g, coefs, k, i, k)
    ensures TablesUpTo(g, coefs, k, i + 1, 0)
  {
    hide TableAt, TableOffset;
  }

  /** The coefficient itself sits one byte into its table. */
  lemma CoefficientInTable(g: seq<bv8>, coefs: Matrix, k: nat, l: nat, j: nat)
    requires IsMatrix(coefs, |coefs|, k) && l < |coefs| && j < k && HoldsTables(g, coefs, k)
    ensures TableAt(g, TableOffset(k, l, j), coefs[l][j])
    ensures g[TableOffset(k, l, j) + 1] == coefs[l][j]
  {
    var p := TableOffset(k, l, j);
    assert TableAt(g, p, coefs[l][j]);
    SecondEntry(coefs[l][j]);
    hide MulTable, TableOffset;
    assert g[p..p + 32][1] == g[p + 1];
  }

  /** Two look-ups in the table of coefficient (l, j) multiply any byte by it. */
  lemma TablesMultiply(g: seq<bv8>, coefs: Matrix, k: nat, l: nat, j: nat, x: bv8)
    requires IsMatrix(coefs, |coefs|, k) && l < |coefs| && j < k && HoldsTables(g, coefs, k)
    ensures 0 <= 32 * (l * k + j) && 32 * (l * k + j) + 32 <= |g| && (x & 0x0f) as int < 16 && (x >> 4) as int < 16
    ensures Xor(g[32 * (l * k + j) + (x & 0x0f) as int], g[32 * (l * k + j) + 16 + (x >> 4) as int]) == Mul(coefs[l][j], x)
  {
    hide Mul, Xor, MulTable;
    var p := TableOffset(k, l, j);
    assert TableAt(g, p, coefs[l][j]);
    NibbleLookup(coefs[l][j], x);
    assert g[p..p + 32][(x & 0x0f) as int] == g[p + (x & 0x0f) as int];
    assert g[p..p + 32][16 + (x >> 4) as int] == g[p + 16 + (x >> 4) as int];
  }
}
