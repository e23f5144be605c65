/** Two-row multiply-accumulate kernels: 16 bytes at a time with a saved tail block, 64 with a masked one. */
module MadKernels {
  import opened GaloisField
  import opened Matrices
  import opened MulTables
  import opened Simd

  method Store(dest: array<bv8>, pos: nat, x: Register)
    requires pos + |x| <= dest.Length
    modifies dest
    ensures dest[..] == old(dest[..pos]) + x + old(dest[pos + |x|..])
  {
    forall i | 0 <= i < |x| {
      dest[pos + i] := x[i];
    }
  }

  /** The first n bytes have been accumulated, exactly once, and no other byte has changed. */
  ghost predicate Accumulated(now: seq<bv8>, before: seq<bv8>, c: bv8, src: seq<bv8>, n: nat)
    requires n <= |src|
  {
    && |now| == |before|
    && forall b | 0 <= b < |now| :: now[b] == if b < n then Xor(before[b], Mul(c, src[b])) else before[b]
  }

  lemma AccumulatedIsBase(now: seq<bv8>, before: seq<bv8>, c: bv8, src: seq<bv8>, n: nat)
    requires n <= |src| && n <= |before| && Accumulated(now, before, c, src, n)
    ensures now == Plus(before[..n], Times(c, src[..n])) + before[n..]
  {
    hide Xor, Mul;
  }

  /** A block computed from original bytes, at or before the end of the accumulated prefix. */
  lemma BlockStep(now: seq<bv8>, next: seq<bv8>, before: seq<bv8>, c: bv8, src: seq<bv8>, pos: nat, p: nat, w: nat)
    requires p <= pos <= p + w <= |src| && p + w <= |now| && Accumulated(now, before, c, src, pos)
    requires next == now[..p] + Vpxor(before[p..p + w], Times(c, src[p..p + w])) + now[p + w..]
    ensures Accumulated(next, before, c, src, p + w)
  {
    hide Xor, Mul;
  }

  /** The overlapping last block, with the lanes below the accumulated prefix masked off. */
  lemma MaskedTail(now: seq<bv8>, next: seq<bv8>, before: seq<bv8>, c: bv8, src: seq<bv8>, pos: nat, p: nat, w: nat,
                   k: seq<bool>)
    requires p <= pos <= p + w <= |src| && p + w <= |now| && Accumulated(now, before, c, src, pos)
    requires |k| == w && forall i | 0 <= i < w :: k[i] <==> p + i >= pos
    requires next == now[..p] + Vpxor(now[p..p + w], ZeroMasked(k, Times(c, src[p..p + w]))) + now[p + w..]
    ensures Accumulated(next, before, c, src, p + w)
  {
    hide Xor, Mul;
    forall b | 0 <= b < |next|
      ensures next[b] == if b < p + w then Xor(before[b], Mul(c, src[b])) else before[b]
    {
      XorLaws(now[b], 0);
    }
  }

  lemma OneLane(t: Register)
    requires |t| == 16
    ensures Broadcast(t, 1) == t
  {}

  /** The two halves of the table of c, in every lane. */
  ghost predicate TableHalves(lo: Register, hi: Register, c: bv8, n: nat) {
    lo == Broadcast(MulTable(c)[..16], n) && hi == Broadcast(MulTable(c)[16..], n)
  }

  /** Adds the products of x0 to xd and stores the block. */
  method AccumulateBlock(dest: array<bv8>, pos: nat, xd: Register, lo: Register, hi: Register, x0: Register,
                         ghost c: bv8, ghost before: seq<bv8>, ghost s: seq<bv8>, ghost done: nat)
    requires |x0| == |xd| == |lo| == |hi| == 16 && TableHalves(lo, hi, c, 1)
    requires pos <= done <= pos + 16 <= |s| && pos + 16 <= |before| && done <= |s|
    requires x0 == s[pos..pos + 16] && xd == before[pos..pos + 16]
    requires Accumulated(dest[..], before, c, s, done)
    modifies dest
    ensures Accumulated(dest[..], before, c, s, pos + 16)
  {
    hide Xor, Mul, MulTable, Products, Plus, Times;
    SameLength(dest[..], before, c, s, done);
    ghost var now := dest[..];
    ProductsMultiply(c, 1, x0);
    Store(dest, pos, Vpxor(xd, Products(lo, hi, x0)));
    BlockStep(now, dest[..], before, c, s, done, pos, 16);
  }

  lemma SameLength(now: seq<bv8>, before: seq<bv8>, c: bv8, src: seq<bv8>, n: nat)
    requires n <= |src| && Accumulated(now, before, c, src, n)
    ensures |now| == |before|
    ensures forall b | n <= b < |now| :: now[b] == before[b]
  {}

  /** gf_2vect_mad_avx. `c1` and `c2` are the coefficients whose tables the kernel is given. */
  method Gf2VectMadAvx(len: nat, vec: nat, vecI: nat, mulArray: array<bv8>, src: array<bv8>,
                       dest1: array<bv8>, dest2: array<bv8>, ghost c1: bv8, ghost c2: bv8) returns (ret: int)
    requires TableAt(mulArray[..], 32 * vecI, c1) && TableAt(mulArray[..], 32 * vecI + 32 * vec, c2)
    requires len <= src.Length && len <= dest1.Length && len <= dest2.Length
    requires dest1 != dest2 && src != dest1 && src != dest2
    modifies dest1, dest2
    ensures len < 16 ==> ret == 1 && dest1[..] == old(dest1[..]) && dest2[..] == old(dest2[..])
    ensures len >= 16 ==>
              && ret == 0
              && dest1[..] == Plus(old(dest1[..len]), Times(c1, src[..len])) + old(dest1[len..])
              && dest2[..] == Plus(old(dest2[..len]), Times(c2, src[..len])) + old(dest2[len..])
  {
    hide Xor, Mul, MulTable, Accumulated, Products, Plus, Times, TableHalves;
    if len < 16 {
      return 1;
    }
    var last := len - 16;
    var pos := 0;
    var tmp := 32 * vecI;
    var gft1, gft2 := mulArray[tmp..tmp + 32], mulArray[tmp + 32 * vec..tmp + 32 * vec + 32];
    var gft1Lo, gft1Hi, gft2Lo, gft2Hi := gft1[..16], gft1[16..], gft2[..16], gft2[16..];
    HalvesOf(mulArray[..], tmp, c1);
    HalvesOf(mulArray[..], tmp + 32 * vec, c2);
    var saved1, saved2 := dest1[last..last + 16], dest2[last..last + 16];
    ghost var s, d1, d2 := src[..], dest1[..], dest2[..];
    StartAccumulated(d1, c1, s);
    StartAccumulated(d2, c2, s);
    while pos <= last
      invariant pos <= len && src[..] == s
      invariant Accumulated(dest1[..], d1, c1, s, pos) && Accumulated(dest2[..], d2, c2, s, pos)
    {
      SameLength(dest1[..], d1, c1, s, pos);
      SameLength(dest2[..], d2, c2, s, pos);
      var x0 := src[pos..pos + 16];
      var xd1, xd2 := dest1[pos..pos + 16], dest2[pos..pos + 16];
      AccumulateBlock(dest1, pos, xd1, gft1Lo, gft1Hi, x0, c1, d1, s, pos);
      AccumulateBlock(dest2, pos, xd2, gft2Lo, gft2Hi, x0, c2, d2, s, pos);
      pos := pos + 16;
    }
    if pos != len {
      var x0 := src[last..last + 16];
      AccumulateBlock(dest1, last, saved1, gft1Lo, gft1Hi, x0, c1, d1, s, pos);
      AccumulateBlock(dest2, last, saved2, gft2Lo, gft2Hi, x0, c2, d2, s, pos);
    }
    AccumulatedIsBase(dest1[..], d1, c1, s, len);
    AccumulatedIsBase(dest2[..], d2, c2, s, len);
    return 0;
  }

  lemma StartAccumulated(d: seq<bv8>, c: bv8, src: seq<bv8>)
    ensures Accumulated(d, d, c, src, 0)
  {}

  lemma HalvesOf(g: seq<bv8>, off: nat, c: bv8)
    requires TableAt(g, off, c)
    ensures TableHalves(g[off..off + 32][..16], g[off..off + 32][16..], c, 1)
  {
    hide MulTable;
    OneLane(MulTable(c)[..16]);
    OneLane(MulTable(c)[16..]);
  }

  // ---------- 64 bytes at a time ----------

  /** The look-up sequence with both shuffles under a zeroing mask. */
  function MaskedProducts(k: seq<bool>, lo: Register, hi: Register, x0: Register): (y: Register)
    requires |lo| == |hi| == |x0| == |k| && |x0| % 16 == 0
    ensures |y| == |x0|
  {
    var low := Vpand(x0, 0x0f);
    var high := Vpand(Vpsraw4(x0), 0x0f);
    Vpxor(ZeroMasked(k, Vpshufb(hi, high)), ZeroMasked(k, Vpshufb(lo, low)))
  }

  lemma MaskAfter(k: seq<bool>, lo: Register, hi: Register, x0: Register)
    requires |lo| == |hi| == |x0| == |k| && |x0| % 16 == 0
    ensures MaskedProducts(k, lo, hi, x0) == ZeroMasked(k, Products(lo, hi, x0))
  {
    hide Xor, Vpshufb, Vpsraw4, Vpand;
    XorLaws(0, 0);
  }

  /** sarx on a 64-bit mask. */
  function Sarx(bits: seq<bool>, t: nat): (shifted: seq<bool>)
    requires |bits| == 64
    ensures |shifted| == 64
  {
    seq(64, j requires 0 <= j => if j + t < 64 then bits[j + t] else bits[63])
  }

  method AccumulateMasked(dest: array<bv8>, pos: nat, k: seq<bool>, lo: Register, hi: Register, x0: Register,
                          ghost c: bv8, ghost before: seq<bv8>, ghost s: seq<bv8>, ghost done: nat)
    requires |x0| == |lo| == |hi| == |k| == 64 && TableHalves(lo, hi, c, 4)
    requires pos <= done <= pos + 64 <= |s| && pos + 64 <= |before|
    requires x0 == s[pos..pos + 64] && forall i | 0 <= i < 64 :: k[i] <==> pos + i >= done
    requires Accumulated(dest[..], before, c, s, done)
    modifies dest
    ensures Accumulated(dest[..], before, c, s, pos + 64)
  {
    hide Xor, Mul, MulTable, Products, Plus, Times, ZeroMasked, MaskedProducts;
    SameLength(dest[..], before, c, s, done);
    ghost var now := dest[..];
    ProductsMultiply(c, 4, x0);
    MaskAfter(k, lo, hi, x0);
    Store(dest, pos, Vpxor(dest[pos..pos + 64], MaskedProducts(k, lo, hi, x0)));
    MaskedTail(now, dest[..], before, c, s, done, pos, 64, k);
  }

  /** gf_2vect_mad_avx512. */
  method Gf2VectMadAvx512(len: nat, vec: nat, vecI: nat, mulArray: array<bv8>, src: array<bv8>,
                          dest1: array<bv8>, dest2: array<bv8>, ghost c1: bv8, ghost c2: bv8) returns (ret: int)
    requires TableAt(mulArray[..], 32 * vecI, c1) && TableAt(mulArray[..], 32 * vecI + 32 * vec, c2)
    requires len <= src.Length && len <= dest1.Length && len <= dest2.Length
    requires dest1 != dest2 && src != dest1 && src != dest2
    modifies dest1, dest2
    ensures len < 64 ==> ret == 1 && dest1[..] == old(dest1[..]) && dest2[..] == old(dest2[..])
    ensures len >= 64 ==>
              && ret == 0
              && dest1[..] == Plus(old(dest1[..len]), Times(c1, src[..len])) + old(dest1[len..])
              && dest2[..] == Plus(old(dest2[..len]), Times(c2, src[..len])) + old(dest2[len..])
  {
    hide Xor, Mul, MulTable, Accumulated, Products, Plus, Times, TableHalves, Broadcast;
    if len < 64 {
      return 1;
    }
    var last := len - 64;
    var pos := 0;
    var tmp := 32 * vecI;
    var gft1, gft2 := mulArray[tmp..tmp + 32], mulArray[tmp + 32 * vec..tmp + 32 * vec + 32];
    var gft1Lo, gft1Hi := Broadcast(gft1[..16], 4), Broadcast(gft1[16..], 4);
    var gft2Lo, gft2Hi := Broadcast(gft2[..16], 4), Broadcast(gft2[16..], 4);
    FourLanes(mulArray[..], tmp, c1);
    FourLanes(mulArray[..], tmp + 32 * vec, c2);
    var k1 := seq(64, _ => true);
    ghost var s, d1, d2 := src[..], dest1[..], dest2[..];
    StartAccumulated(d1, c1, s);
    StartAccumulated(d2, c2, s);
    while pos <= last
      invariant pos <= len && pos % 64 == 0 && src[..] == s
      invariant Accumulated(dest1[..], d1, c1, s, pos) && Accumulated(dest2[..], d2, c2, s, pos)
    {
      var x0 := src[pos..pos + 64];
      AccumulateMasked(dest1, pos, k1, gft1Lo, gft1Hi, x0, c1, d1, s, pos);
      AccumulateMasked(dest2, pos, k1, gft2Lo, gft2Hi, x0, c2, d2, s, pos);
      pos := pos + 64;
    }
    if pos != len {
      var top := seq(64, j => j == 63);
      k1 := Sarx(top, (last + 64 - 1) % 64);
      TailMask(len, pos);
      var x0 := src[last..last + 64];
      AccumulateMasked(dest1, last, k1, gft1Lo, gft1Hi, x0, c1, d1, s, pos);
      AccumulateMasked(dest2, last, k1, gft2Lo, gft2Hi, x0, c2, d2, s, pos);
    }
    AccumulatedIsBase(dest1[..], d1, c1, s, len);
    AccumulatedIsBase(dest2[..], d2, c2, s, len);
    return 0;
  }

  lemma FourLanes(g: seq<bv8>, off: nat, c: bv8)
    requires TableAt(g, off, c)
    ensures var t := g[off..off + 32]; TableHalves(Broadcast(t[..16], 4), Broadcast(t[16..], 4), c, 4)
  {}

  /** The shifted mask leaves exactly the lanes that no full block has reached. */
  lemma TailMask(len: nat, pos: nat)
    requires len >= 64 && pos % 64 == 0 && len - 64 < pos < len
    ensures var k := Sarx(seq(64, j => j == 63), (len - 1) % 64);
            forall i | 0 <= i < 64 :: k[i] <==> len - 64 + i >= pos
  {
    assert (len - 1) % 64 == len - 1 - pos;
  }
}
