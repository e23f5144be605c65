/** The vector instructions that the kernels use, on registers modelled as sequences of bytes. */
module Simd {
  import opened GaloisField
  import opened Matrices
  import opened MulTables

  type Register = seq<bv8>

  /** vpand with the same byte in every lane. */
  function Vpand(x: Register, mask: bv8): (y: Register)
    ensures |y| == |x|
  {
    seq(|x|, i requires 0 <= i < |x| => x[i] & mask)
  }

  function Sar4(w: bv16): bv16 {
    (w >> 4) | (if w & 0x8000 != 0 then 0xf000 else 0)
  }

  function WordOf(low: bv8, high: bv8): bv16 {
    (high as bv16 << 8) | low as bv16
  }

  function ShiftedLow(low: bv8, high: bv8): bv8 { (Sar4(WordOf(low, high)) & 0xff) as bv8 }

  function ShiftedHigh(low: bv8, high: bv8): bv8 { (Sar4(WordOf(low, high)) >> 8) as bv8 }

  /** vpsraw by 4: arithmetic right shift of every little-endian 16-bit word. */
  function Vpsraw4(x: Register): (y: Register)
    requires |x| % 2 == 0
    ensures |y| == |x|
  {
    seq(|x|, i requires 0 <= i < |x| =>
      if i % 2 == 0 then ShiftedLow(x[i], x[i + 1]) else ShiftedHigh(x[i - 1], x[i]))
  }

  /** vpshufb: byte i is looked up in the 16-byte lane of `table` that i lies in. */
  function Vpshufb(table: Register, index: Register): (y: Register)
    requires |table| == |index| && |table| % 16 == 0
    ensures |y| == |index|
  {
    seq(|index|, i requires 0 <= i < |index| =>
      if index[i] & 0x80 != 0 then 0 else LaneEntry(table, i, index[i]))
  }

  function LaneEntry(table: Register, i: nat, index: bv8): bv8
    requires i < |table| && |table| % 16 == 0
  {
    assert (index & 0x0f) as int < 16 by { NibbleValues(index); }
    table[i / 16 * 16 + (index & 0x0f) as int]
  }

  /** A zero-masking instruction keeps the bytes whose mask bit is set. */
  function ZeroMasked(k: seq<bool>, y: Register): (z: Register)
    requires |k| == |y|
    ensures |z| == |y|
  {
    seq(|y|, i requires 0 <= i < |y| => if k[i] then y[i] else 0)
  }

  function Vpxor(x: Register, y: Register): (z: Register)
    requires |x| == |y|
    ensures |z| == |x|
  {
    Plus(x, y)
  }

  /** The same 16 bytes in each of n lanes. */
  function Broadcast(table: Register, n: nat): (y: Register)
    requires |table| == 16
    ensures |y| == 16 * n
  {
    seq(16 * n, i requires 0 <= i => table[i % 16])
  }

  /** The look-up sequence of the kernels: mask, shift, mask, two shuffles, one exclusive or. */
  function Products(lo: Register, hi: Register, x0: Register): (y: Register)
    requires |lo| == |hi| == |x0| && |x0| % 16 == 0
    ensures |y| == |x0|
  {
    var low := Vpand(x0, 0x0f);
    var high := Vpand(Vpsraw4(x0), 0x0f);
    Vpxor(Vpshufb(hi, high), Vpshufb(lo, low))
  }

  lemma ShiftedNibbles(low: bv8, high: bv8)
    ensures ShiftedLow(low, high) & 0x0f == low >> 4
    ensures ShiftedHigh(low, high) & 0x0f == high >> 4
  {
    if WordOf(low, high) & 0x8000 != 0 {} else {}
  }

  lemma HighNibbles(x: Register, i: nat)
    requires |x| % 2 == 0 && i < |x|
    ensures Vpand(Vpsraw4(x), 0x0f)[i] == x[i] >> 4
  {
    hide ShiftedLow, ShiftedHigh;
    if i % 2 == 0 {
      ShiftedNibbles(x[i], x[i + 1]);
    } else {
      ShiftedNibbles(x[i - 1], x[i]);
    }
  }

  lemma ShuffleNibble(table: Register, index: Register, i: nat, x: bv8)
    requires |table| == |index| && |table| % 16 == 0 && i < |index| && index[i] == x && x <= 0x0f
    ensures x as int < 16 && Vpshufb(table, index)[i] == table[i / 16 * 16 + x as int]
  {
    assert x & 0x80 == 0 && x & 0x0f == x;
    NibbleValues(x);
  }

  lemma LaneOfTable(t: Register, n: nat, index: Register, i: nat, x: bv8)
    requires |t| == 16 && |index| == 16 * n && i < 16 * n && index[i] == x && x <= 0x0f
    ensures x as int < 16 && Vpshufb(Broadcast(t, n), index)[i] == t[x as int]
  {
    hide Vpshufb;
    ShuffleNibble(Broadcast(t, n), index, i, x);
    LaneIndex(i, x as int);
  }

  lemma ProductAt(c: bv8, n: nat, x0: Register, i: nat)
    requires |x0| == 16 * n && i < 16 * n
    ensures Products(Broadcast(MulTable(c)[..16], n), Broadcast(MulTable(c)[16..], n), x0)[i] == Mul(c, x0[i])
  {
    hide Mul, Xor, Vpshufb, MulTable, Vpsraw4, Broadcast;
    var x := x0[i];
    var lo, hi := MulTable(c)[..16], MulTable(c)[16..];
    HighNibbles(x0, i);
    NibbleLookup(c, x);
    SmallNibbles(x);
    LaneOfTable(lo, n, Vpand(x0, 0x0f), i, x & 0x0f);
    LaneOfTable(hi, n, Vpand(Vpsraw4(x0), 0x0f), i, x >> 4);
    XorLaws(lo[(x & 0x0f) as int], hi[(x >> 4) as int]);
  }

  /** With the two halves of a multiplication table in every lane, the sequence multiplies every byte. */
  lemma ProductsMultiply(c: bv8, n: nat, x0: Register)
    requires |x0| == 16 * n
    ensures Products(Broadcast(MulTable(c)[..16], n), Broadcast(MulTable(c)[16..], n), x0) == Times(c, x0)
  {
    hide Mul, MulTable, Broadcast, Products;
    forall i | 0 <= i < 16 * n
      ensures Products(Broadcast(MulTable(c)[..16], n), Broadcast(MulTable(c)[16..], n), x0)[i] == Mul(c, x0[i])
    {
      ProductAt(c, n, x0, i);
    }
  }

  lemma SmallNibbles(x: bv8)
    ensures x & 0x0f <= 0x0f && x >> 4 <= 0x0f
  {}

  lemma LaneIndex(i: nat, j: nat)
    requires j < 16
    ensures (i / 16 * 16 + j) % 16 == j
  {}
}
