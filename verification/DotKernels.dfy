/** Dot-product kernels for one to four output rows, 16 bytes at a time, and the dispatch over groups of rows. */
module DotKernels {
  import opened GaloisField
  import opened Matrices
  import opened MulTables
  import opened Encode
  import opened Simd
  import opened MadKernels

  /** The 16 bytes at `pos` of an output row, after the first j sources. */
  ghost function PartialBlock(row: Vector, data: Matrix, len: nat, pos: nat, j: nat): (x: Register)
    requires IsMatrix(data, |row|, len) && pos + 16 <= len && j <= |row|
    ensures |x| == 16
  {
    seq(16, b requires 0 <= b < 16 => Dot(row, Column(data, pos + b), j))
  }

  lemma PartialStart(row: Vector, data: Matrix, len: nat, pos: nat)
    requires IsMatrix(data, |row|, len) && pos + 16 <= len
    ensures PartialBlock(row, data, len, pos, 0) == Zeros(16)
  {
    forall b | 0 <= b < 16 ensures PartialBlock(row, data, len, pos, 0)[b] == 0 {
      EmptyDot(row, Column(data, pos + b));
    }
  }

  lemma PartialStep(row: Vector, data: Matrix, len: nat, pos: nat, j: nat)
    requires IsMatrix(data, |row|, len) && pos + 16 <= len && j < |row|
    ensures Vpxor(PartialBlock(row, data, len, pos, j), Times(row[j], data[j][pos..pos + 16]))
         == PartialBlock(row, data, len, pos, j + 1)
  {
    hide Xor, Mul;
    forall b | 0 <= b < 16
      ensures Xor(PartialBlock(row, data, len, pos, j)[b], Mul(row[j], data[j][pos + b]))
           == PartialBlock(row, data, len, pos, j + 1)[b]
    {
      var column := Column(data, pos + b);
      assert PartialBlock(row, data, len, pos, j + 1)[b] == Dot(row, column, j + 1);
      assert Dot(row, column, j + 1) == Xor(Dot(row, column, j), Mul(row[j], column[j]));
    }
  }

  lemma PartialEnd(row: Vector, data: Matrix, len: nat, pos: nat)
    requires IsMatrix(data, |row|, len) && pos + 16 <= len
    ensures PartialBlock(row, data, len, pos, |row|) == EncodeRow(row, data, len)[pos..pos + 16]
  {
    hide Xor, Mul, Dot;
  }

  lemma RowTable(k: nat, base: nat, r: nat, j: nat)
    ensures TableOffset(k, base, 0) + 32 * j + 32 * k * r == TableOffset(k, base + r, j)
  {
    assert (base + r) * k == base * k + r * k;
  }

  /** One row's share of the inner step: look up its table and add the products. */
  method AddProducts(xp: Register, tmp: nat, gTbls: array<bv8>, x0: Register, ghost c: bv8) returns (xp': Register)
    requires |xp| == |x0| == 16 && TableAt(gTbls[..], tmp, c)
    ensures xp' == Vpxor(xp, Times(c, x0))
  {
    hide Xor, Mul, MulTable, Products, Plus, Times;
    var gft := gTbls[tmp..tmp + 32];
    HalvesOf(gTbls[..], tmp, c);
    ProductsMultiply(c, 1, x0);
    xp' := Vpxor(xp, Products(gft[..16], gft[16..], x0));
  }

  /** The loop over the sources for the block at `pos`, with one accumulator per row. */
  method DotBlock(rows: nat, k: nat, pos: nat, g: nat, gTbls: array<bv8>, src: seq<array<bv8>>,
                  ghost len: nat, ghost coefs: Matrix, ghost base: nat) returns (xp: seq<Register>)
    requires |src| == k && k >= 1 && base + rows <= |coefs| && IsMatrix(coefs, |coefs|, k)
    requires HoldsTables(gTbls[..], coefs, k) && g == TableOffset(k, base, 0)
    requires pos + 16 <= len && forall j | 0 <= j < k :: len <= src[j].Length
    ensures |xp| == rows
    ensures forall r | 0 <= r < rows ::
              xp[r] == EncodeRow(coefs[base + r], Contents(src, len), len)[pos..pos + 16]
  {
    hide Xor, Mul, HoldsTables, PartialBlock, Vpxor, TableOffset, TableAt, EncodeRow;
    ghost var data := Contents(src, len);
    xp := seq(rows, _ => Zeros(16));
    forall r | 0 <= r < rows ensures xp[r] == PartialBlock(coefs[base + r], data, len, pos, 0) {
      PartialStart(coefs[base + r], data, len, pos);
    }
    var tmp := g;
    for j := 0 to k
      invariant tmp == g + 32 * j && |xp| == rows
      invariant forall r | 0 <= r < rows :: xp[r] == PartialBlock(coefs[base + r], data, len, pos, j)
    {
      var x0 := src[j][pos..pos + 16];
      assert x0 == data[j][pos..pos + 16];
      for r := 0 to rows
        invariant |xp| == rows
        invariant forall q | 0 <= q < rows ::
                    xp[q] == PartialBlock(coefs[base + q], data, len, pos, if q < r then j + 1 else j)
      {
        RowTable(k, base, r, j);
        CoefficientInTable(gTbls[..], coefs, k, base + r, j);
        PartialStep(coefs[base + r], data, len, pos, j);
        var x := AddProducts(xp[r], tmp + 32 * k * r, gTbls, x0, coefs[base + r][j]);
        xp := xp[r := x];
      }
      tmp := tmp + 32;
    }
    forall r | 0 <= r < rows
      ensures xp[r] == EncodeRow(coefs[base + r], data, len)[pos..pos + 16]
    {
      PartialEnd(coefs[base + r], data, len, pos);
    }
  }

  /** Bytes below `pos` are final and bytes from `len` on untouched. */
  ghost predicate Written(now: seq<bv8>, before: seq<bv8>, shard: seq<bv8>, pos: nat) {
    && |now| == |before| && pos <= |shard| <= |now|
    && (forall b | 0 <= b < pos :: now[b] == shard[b])
    && forall b | |shard| <= b < |now| :: now[b] == before[b]
  }

  lemma WriteBlock(now: seq<bv8>, next: seq<bv8>, before: seq<bv8>, shard: seq<bv8>, pos: nat, p: nat)
    requires Written(now, before, shard, pos) && p <= pos <= p + 16 <= |shard|
    requires next == now[..p] + shard[p..p + 16] + now[p + 16..]
    ensures Written(next, before, shard, p + 16)
  {}

  method StoreAll(dest: seq<array<bv8>>, p: nat, xp: seq<Register>, ghost befores: seq<seq<bv8>>, ghost shards: Matrix,
                  ghost pos: nat, ghost len: nat)
    requires |dest| == |xp| == |befores| && IsMatrix(shards, |dest|, len) && p <= pos <= p + 16 <= len
    requires forall l, l' | 0 <= l < l' < |dest| :: dest[l] != dest[l']
    requires forall r | 0 <= r < |dest| :: Written(dest[r][..], befores[r], shards[r], pos) && xp[r] == shards[r][p..p + 16]
    modifies dest
    ensures forall r | 0 <= r < |dest| :: Written(dest[r][..], befores[r], shards[r], p + 16)
  {
    for r := 0 to |dest|
      invariant forall q | 0 <= q < r :: Written(dest[q][..], befores[q], shards[q], p + 16)
      invariant forall q | r <= q < |dest| :: dest[q][..] == old(dest[q][..])
    {
      assert Written(dest[r][..], befores[r], shards[r], pos);
      ghost var now := dest[r][..];
      Store(dest[r], p, xp[r]);
      WriteBlock(now, dest[r][..], befores[r], shards[r], pos, p);
    }
  }

  /** gf_vect_dot_prod_avx to gf_4vect_dot_prod_avx, with the number of rows as a parameter. */
  method GfVectDotProdAvx(rows: nat, len: nat, k: nat, g: nat, gTbls: array<bv8>, src: seq<array<bv8>>,
                          dest: seq<array<bv8>>, ghost coefs: Matrix, ghost base: nat) returns (ret: int)
    requires |src| == k && k >= 1 && |dest| == rows && base + rows <= |coefs| && IsMatrix(coefs, |coefs|, k)
    requires HoldsTables(gTbls[..], coefs, k) && g == TableOffset(k, base, 0)
    requires (forall j | 0 <= j < k :: len <= src[j].Length) && forall r | 0 <= r < rows :: len <= dest[r].Length
    requires Separate(src, dest, gTbls)
    modifies dest
    ensures len < 16 ==> ret == 1 && forall r | 0 <= r < rows :: dest[r][..] == old(dest[r][..])
    ensures len >= 16 ==> ret == 0 && forall r | 0 <= r < rows ::
              dest[r][..] == EncodeRow(coefs[base + r], old(Contents(src, len)), len) + old(dest[r][len..])
  {
    hide Xor, Mul, HoldsTables, Written, EncodeRow, TableOffset;
    if len < 16 {
      return 1;
    }
    ghost var data, tbls := Contents(src, len), gTbls[..];
    ghost var befores := seq(rows, r requires 0 <= r < rows reads dest => dest[r][..]);
    ghost var shards := EncodeAll(coefs[base..base + rows], data, len);
    assert forall r | 0 <= r < rows :: shards[r] == EncodeRow(coefs[base + r], data, len);
    StartWritten(befores, shards, len);
    var last := len - 16;
    var pos := 0;
    while pos <= last
      invariant pos <= len && gTbls[..] == tbls && Contents(src, len) == data
      invariant forall r | 0 <= r < rows :: Written(dest[r][..], befores[r], shards[r], pos)
    {
      var xp := DotBlock(rows, k, pos, g, gTbls, src, len, coefs, base);
      StoreAll(dest, pos, xp, befores, shards, pos, len);
      pos := pos + 16;
    }
    if pos != len {
      var xp := DotBlock(rows, k, last, g, gTbls, src, len, coefs, base);
      StoreAll(dest, last, xp, befores, shards, pos, len);
    }
    forall r | 0 <= r < rows
      ensures dest[r][..] == EncodeRow(coefs[base + r], data, len) + old(dest[r][len..])
    {
      AllWritten(dest[r][..], befores[r], shards[r]);
      assert befores[r][len..] == old(dest[r][len..]);
    }
    return 0;
  }

  lemma StartWritten(befores: seq<seq<bv8>>, shards: Matrix, len: nat)
    requires |befores| == |shards| && IsMatrix(shards, |shards|, len)
    requires forall r | 0 <= r < |befores| :: len <= |befores[r]|
    ensures forall r | 0 <= r < |befores| :: Written(befores[r], befores[r], shards[r], 0)
  {}

  lemma AllWritten(now: seq<bv8>, before: seq<bv8>, shard: seq<bv8>)
    requires Written(now, before, shard, |shard|)
    ensures now == shard + before[|shard|..]
  {}

  /** ec_encode_data_avx: short shards by the reference loop, the rest four rows at a time. */
  method EcEncodeDataAvx(len: nat, k: nat, rows: nat, gTbls: array<bv8>, data: seq<array<bv8>>, coding: seq<array<bv8>>,
                         ghost coefs: Matrix)
    requires |data| == k && k >= 1 && |coding| == rows && IsMatrix(coefs, rows, k) && HoldsTables(gTbls[..], coefs, k)
    requires (forall j | 0 <= j < k :: len <= data[j].Length) && forall l | 0 <= l < rows :: len <= coding[l].Length
    requires Separate(data, coding, gTbls)
    modifies coding
    ensures Contents(coding, len) == EncodeAll(coefs, old(Contents(data, len)), len)
    ensures forall l | 0 <= l < rows :: coding[l][len..] == old(coding[l][len..])
  {
    hide Xor, Mul, HoldsTables, EncodeRow, TableOffset;
    if len < 16 {
      EcEncodeDataBase(len, k, rows, gTbls, data, coding, coefs);
      return;
    }
    ghost var shards, tbls := Contents(data, len), gTbls[..];
    var done, g := 0, 0;
    FirstTable(k);
    while rows - done >= 4
      invariant done <= rows && g == TableOffset(k, done, 0)
      invariant gTbls[..] == tbls && Contents(data, len) == shards
      invariant forall l | 0 <= l < done :: coding[l][..len] == EncodeRow(coefs[l], shards, len)
      invariant forall l | 0 <= l < rows :: coding[l][len..] == old(coding[l][len..])
    {
      EncodeGroup(4, len, k, g, gTbls, data, coding, coefs, done);
      NextGroup(k, done);
      g := g + 4 * k * 32;
      done := done + 4;
    }
    EncodeGroup(rows - done, len, k, g, gTbls, data, coding, coefs, done);
  }

  lemma FirstTable(k: nat)
    ensures TableOffset(k, 0, 0) == 0
  {}

  lemma NextGroup(k: nat, base: nat)
    ensures TableOffset(k, base, 0) + 4 * k * 32 == TableOffset(k, base + 4, 0)
  {
    assert (base + 4) * k == base * k + 4 * k;
  }

  /** One call of a kernel on the output buffers from row `base` on. */
  method EncodeGroup(count: nat, len: nat, k: nat, g: nat, gTbls: array<bv8>, data: seq<array<bv8>>,
                     coding: seq<array<bv8>>, ghost coefs: Matrix, base: nat)
    requires |data| == k && k >= 1 && base + count <= |coding| == |coefs| && IsMatrix(coefs, |coefs|, k) && len >= 16
    requires HoldsTables(gTbls[..], coefs, k) && g == TableOffset(k, base, 0)
    requires (forall j | 0 <= j < k :: len <= data[j].Length) && forall l | 0 <= l < |coding| :: len <= coding[l].Length
    requires Separate(data, coding, gTbls)
    modifies coding[base..base + count]
    ensures forall l | base <= l < base + count ::
              coding[l][..len] == EncodeRow(coefs[l], old(Contents(data, len)), len)
    ensures forall l | 0 <= l < |coding| :: coding[l][len..] == old(coding[l][len..])
    ensures forall l | 0 <= l < |coding| && !(base <= l < base + count) :: coding[l][..] == old(coding[l][..])
    ensures gTbls[..] == old(gTbls[..]) && Contents(data, len) == old(Contents(data, len))
  {
    hide Xor, Mul, HoldsTables, EncodeRow, TableOffset;
    if count == 0 {
      return;
    }
    var dest := coding[base..base + count];
    assert forall l | 0 <= l < count :: dest[l] == coding[base + l];
    var ret := GfVectDotProdAvx(count, len, k, g, gTbls, data, dest, coefs, base);
    forall l | base <= l < base + count
      ensures coding[l][..len] == EncodeRow(coefs[l], old(Contents(data, len)), len)
    {
      assert coding[l] == dest[l - base];
    }
    forall l | base <= l < base + count ensures coding[l][len..] == old(coding[l][len..]) {
      assert coding[l] == dest[l - base];
      assert coding[l][len..] == coding[l][..][len..];
    }
  }
}
