/** Encoding shards with a coefficient matrix: the byte-wise reference loops, and the laws of the code. */
module Encode {
  import opened GaloisField
  import opened Matrices
  import opened MulTables

  // ---------- Specification ----------

  /** One output shard: every byte is the row times the column of bytes at the same position. */
  function EncodeRow(row: Vector, data: Matrix, len: nat): (shard: Vector)
    requires IsMatrix(data, |row|, len)
    ensures |shard| == len
  {
    seq(len, i requires 0 <= i < len => Dot(row, Column(data, i), |row|))
  }

  /** All output shards. */
  function EncodeAll(coefs: Matrix, data: Matrix, len: nat): (shards: Matrix)
    requires IsMatrix(data, |data|, len) && IsMatrix(coefs, |coefs|, |data|)
    ensures IsMatrix(shards, |coefs|, len)
  {
    seq(|coefs|, l requires 0 <= l < |coefs| => EncodeRow(coefs[l], data, len))
  }

  /** Adds `delta` times coefficient column i to every output shard. */
  function UpdateAll(shards: Matrix, coefs: Matrix, i: nat, delta: Vector): (shards': Matrix)
    requires IsMatrix(shards, |coefs|, |delta|) && forall l | 0 <= l < |coefs| :: i < |coefs[l]|
    ensures IsMatrix(shards', |coefs|, |delta|)
  {
    seq(|coefs|, l requires 0 <= l < |coefs| => Plus(shards[l], Times(coefs[l][i], delta)))
  }

  function PlusAll(a: Matrix, b: Matrix): (c: Matrix)
    requires |a| == |b| && forall r | 0 <= r < |a| :: |a[r]| == |b[r]|
  {
    seq(|a|, r requires 0 <= r < |a| => Plus(a[r], b[r]))
  }

  /** Encoding is linear in the data. */
  lemma EncodeLinear(coefs: Matrix, a: Matrix, b: Matrix, len: nat)
    requires |a| == |b| && IsMatrix(a, |a|, len) && IsMatrix(b, |b|, len) && IsMatrix(coefs, |coefs|, |a|)
    ensures EncodeAll(coefs, PlusAll(a, b), len) == PlusAll(EncodeAll(coefs, a, len), EncodeAll(coefs, b, len))
  {
    hide Xor, Mul, Dot;
    var whole, parts := EncodeAll(coefs, PlusAll(a, b), len), PlusAll(EncodeAll(coefs, a, len), EncodeAll(coefs, b, len));
    forall l, i | 0 <= l < |coefs| && 0 <= i < len ensures whole[l][i] == parts[l][i] {
      DotPlus(Column(a, i), Column(b, i), coefs[l], |a|);
      assert Column(PlusAll(a, b), i) == Plus(Column(a, i), Column(b, i));
    }
    forall l | 0 <= l < |coefs| ensures whole[l] == parts[l] {}
  }

  lemma {:induction false} DotUpdate(row: Vector, x: Vector, i: nat, d: bv8, n: nat)
    requires n <= |row| && n <= |x| && i < |x|
    ensures Dot(row, x[i := Xor(x[i], d)], n) == if i < n then Xor(Dot(row, x, n), Mul(row[i], d)) else Dot(row, x, n)
  {
    hide Xor, Mul;
    if n == 0 {
    } else {
      DotUpdate(row, x, i, d, n - 1);
      var s, p := Dot(row, x, n - 1), Mul(row[n - 1], x[n - 1]);
      if i == n - 1 {
        MulXor(row[i], x[i], d);
        XorAssoc(s, p, Mul(row[i], d));
      } else if i < n {
        var q := Mul(row[i], d);
        XorAssoc(s, q, p);
        XorAssoc(s, p, q);
        XorLaws(p, q);
      }
    }
  }

  /** Adding `delta` to source i and updating the outputs is the same as encoding the new data. */
  lemma UpdateIsReencode(coefs: Matrix, data: Matrix, i: nat, delta: Vector, len: nat)
    requires IsMatrix(data, |data|, len) && IsMatrix(coefs, |coefs|, |data|) && i < |data| && |delta| == len
    ensures UpdateAll(EncodeAll(coefs, data, len), coefs, i, delta)
         == EncodeAll(coefs, data[i := Plus(data[i], delta)], len)
  {
    hide Xor, Mul, Dot;
    var data' := data[i := Plus(data[i], delta)];
    var updated, fresh' := UpdateAll(EncodeAll(coefs, data, len), coefs, i, delta), EncodeAll(coefs, data', len);
    forall l, b | 0 <= l < |coefs| && 0 <= b < len ensures updated[l][b] == fresh'[l][b] {
      DotUpdate(coefs[l], Column(data, b), i, delta[b], |data|);
      assert Column(data', b) == Column(data, b)[i := Xor(data[i][b], delta[b])];
    }
    forall l | 0 <= l < |coefs| ensures updated[l] == fresh'[l] {}
  }

  /** Replacing source i: the update with old xor new turns the old outputs into the new ones. */
  lemma UpdateReplaces(coefs: Matrix, data: Matrix, i: nat, shard: Vector, len: nat)
    requires IsMatrix(data, |data|, len) && IsMatrix(coefs, |coefs|, |data|) && i < |data| && |shard| == len
    ensures UpdateAll(EncodeAll(coefs, data, len), coefs, i, Plus(data[i], shard))
         == EncodeAll(coefs, data[i := shard], len)
  {
    hide Xor, Mul, Dot;
    UpdateIsReencode(coefs, data, i, Plus(data[i], shard), len);
    forall b | 0 <= b < len ensures Plus(data[i], Plus(data[i], shard))[b] == shard[b] {
      XorLaws(data[i][b], shard[b]);
      XorCancel(shard[b], data[i][b]);
    }
    assert Plus(data[i], Plus(data[i], shard)) == shard;
  }

  // ---------- Building the code one source at a time ----------

  function ZeroShards(n: nat, len: nat): (z: Matrix)
    ensures IsMatrix(z, n, len)
  {
    seq(n, _ => Zeros(len))
  }

  /** Applies the updates for the sources named in `order`, one after the other. */
  function UpdateInOrder(shards: Matrix, coefs: Matrix, data: Matrix, order: seq<nat>, len: nat): (shards': Matrix)
    requires IsMatrix(shards, |coefs|, len) && IsMatrix(data, |data|, len) && IsMatrix(coefs, |coefs|, |data|)
    requires forall t | 0 <= t < |order| :: order[t] < |data|
    ensures IsMatrix(shards', |coefs|, len)
    decreases |order|
  {
    if order == [] then shards
    else UpdateInOrder(UpdateAll(shards, coefs, order[0], data[order[0]]), coefs, data, order[1..], len)
  }

  /** The data with every source still to come replaced by zeros. */
  function Masked(data: Matrix, toCome: seq<nat>, len: nat): (masked: Matrix)
    requires IsMatrix(data, |data|, len)
    ensures IsMatrix(masked, |data|, len)
  {
    seq(|data|, j requires 0 <= j < |data| => if j in toCome then Zeros(len) else data[j])
  }

  lemma {:induction false} UpdatesComplete(coefs: Matrix, data: Matrix, order: seq<nat>, len: nat)
    requires IsMatrix(data, |data|, len) && IsMatrix(coefs, |coefs|, |data|)
    requires forall t | 0 <= t < |order| :: order[t] < |data|
    requires Distinct(order)
    ensures UpdateInOrder(EncodeAll(coefs, Masked(data, order, len), len), coefs, data, order, len)
         == EncodeAll(coefs, data, len)
    decreases |order|
  {
    hide Xor, Mul, Dot, EncodeRow, EncodeAll, UpdateAll;
    if order == [] {
      assert Masked(data, order, len) == data;
    } else {
      var i, rest := order[0], order[1..];
      var masked := Masked(data, order, len);
      UpdateIsReencode(coefs, masked, i, data[i], len);
      ZeroPlus(data[i]);
      assert i !in rest;
      assert masked[i := Plus(masked[i], data[i])] == Masked(data, rest, len);
      UpdatesComplete(coefs, data, rest, len);
    }
  }

  lemma ZeroPlus(x: Vector)
    ensures Plus(Zeros(|x|), x) == x
  {
    hide Xor;
    forall i | 0 <= i < |x| ensures Plus(Zeros(|x|), x)[i] == x[i] {
      XorLaws(x[i], 0);
    }
  }

  lemma EncodeZeros(coefs: Matrix, k: nat, len: nat)
    requires IsMatrix(coefs, |coefs|, k)
    ensures EncodeAll(coefs, ZeroShards(k, len), len) == ZeroShards(|coefs|, len)
  {
    hide Xor, Mul, Dot;
    var e := EncodeAll(coefs, ZeroShards(k, len), len);
    forall l, i | 0 <= l < |coefs| && 0 <= i < len ensures e[l][i] == 0 {
      DotZeroTail(coefs[l], Column(ZeroShards(k, len), i), 0, k);
      EmptyDot(coefs[l], Column(ZeroShards(k, len), i));
    }
    forall l | 0 <= l < |coefs| ensures e[l] == Zeros(len) {}
  }

  /** From zeroed outputs, one update per source in any order gives the full encoding. */
  lemma UpdatesFromZero(coefs: Matrix, data: Matrix, order: seq<nat>, len: nat)
    requires IsMatrix(data, |data|, len) && IsMatrix(coefs, |coefs|, |data|)
    requires forall t | 0 <= t < |order| :: order[t] < |data|
    requires Distinct(order)
    requires forall j | 0 <= j < |data| :: j in order
    ensures UpdateInOrder(ZeroShards(|coefs|, len), coefs, data, order, len) == EncodeAll(coefs, data, len)
  {
    hide Xor, Mul, Dot, EncodeRow, EncodeAll, UpdateAll;
    UpdatesComplete(coefs, data, order, len);
    EncodeZeros(coefs, |data|, len);
    assert Masked(data, order, len) == ZeroShards(|data|, len);
  }

  // ---------- The reference loops ----------

  /** The first `len` bytes of every buffer. */
  ghost function Contents(bufs: seq<array<bv8>>, len: nat): (m: Matrix)
    requires forall j | 0 <= j < |bufs| :: len <= bufs[j].Length
    reads bufs
    ensures IsMatrix(m, |bufs|, len)
  {
    seq(|bufs|, j requires 0 <= j < |bufs| && len <= bufs[j].Length reads bufs => bufs[j][..len])
  }

  predicate Separate(src: seq<array<bv8>>, dest: seq<array<bv8>>, v: array<bv8>) {
    && v !in dest
    && (forall j | 0 <= j < |src| :: src[j] !in dest)
    && forall l, l' | 0 <= l < l' < |dest| :: dest[l] != dest[l']
  }

  /** The innermost loop of ec_encode_data_base: byte i of output l. */
  method CodeByte(srcs: nat, l: nat, i: nat, v: array<bv8>, src: seq<array<bv8>>, ghost coefs: Matrix, ghost len: nat)
    returns (s: bv8)
    requires |src| == srcs && IsMatrix(coefs, |coefs|, srcs) && l < |coefs| && HoldsTables(v[..], coefs, srcs)
    requires i < len && forall j | 0 <= j < srcs :: len <= src[j].Length
    ensures s == EncodeRow(coefs[l], Contents(src, len), len)[i]
  {
    hide Xor, Mul, HoldsTables;
    ghost var data := Contents(src, len);
    s := 0;
    for j := 0 to srcs
      invariant s == Dot(coefs[l], Column(data, i), j)
    {
      assert j * 32 + l * srcs * 32 + 1 == TableOffset(srcs, l, j) + 1;
      CoefficientInTable(v[..], coefs, srcs, l, j);
      MulComm(src[j][i], coefs[l][j]);
      assert src[j][i] == data[j][i];
      s := Xor(s, Mul(src[j][i], v[j * 32 + l * srcs * 32 + 1]));
    }
  }

  /** Row l of ec_encode_data_base. */
  method EncodeRowBase(len: nat, srcs: nat, l: nat, v: array<bv8>, src: seq<array<bv8>>, dest: array<bv8>, ghost coefs: Matrix)
    requires |src| == srcs && IsMatrix(coefs, |coefs|, srcs) && l < |coefs| && HoldsTables(v[..], coefs, srcs)
    requires len <= dest.Length && forall j | 0 <= j < srcs :: len <= src[j].Length
    requires dest != v && dest !in src
    modifies dest
    ensures dest[..] == EncodeRow(coefs[l], Contents(src, len), len) + old(dest[len..])
  {
    hide Xor, Mul, HoldsTables, EncodeRow;
    ghost var data := Contents(src, len);
    ghost var g := v[..];
    for i := 0 to len
      invariant v[..] == g && Contents(src, len) == data
      invariant forall b | 0 <= b < i :: dest[b] == EncodeRow(coefs[l], data, len)[b]
      invariant forall b | len <= b < dest.Length :: dest[b] == old(dest[b])
    {
      var s := CodeByte(srcs, l, i, v, src, coefs, len);
      dest[i] := s;
    }
    assert dest[..len] == EncodeRow(coefs[l], data, len);
  }

  method EcEncodeDataBase(len: nat, srcs: nat, dests: nat, v: array<bv8>, src: seq<array<bv8>>, dest: seq<array<bv8>>,
                          ghost coefs: Matrix)
    requires |src| == srcs && |dest| == dests && IsMatrix(coefs, dests, srcs) && HoldsTables(v[..], coefs, srcs)
    requires (forall j | 0 <= j < srcs :: len <= src[j].Length) && forall l | 0 <= l < dests :: len <= dest[l].Length
    requires Separate(src, dest, v)
    modifies dest
    ensures Contents(dest, len) == EncodeAll(coefs, old(Contents(src, len)), len)
    ensures forall l | 0 <= l < dests :: dest[l][len..] == old(dest[l][len..])
  {
    hide Xor, Mul, HoldsTables, EncodeRow;
    ghost var data := Contents(src, len);
    for l := 0 to dests
      invariant v[..] == old(v[..]) && Contents(src, len) == data
      invariant forall r | 0 <= r < l :: dest[r][..len] == EncodeRow(coefs[r], data, len)
      invariant forall r | 0 <= r < dests :: dest[r][len..] == old(dest[r][len..])
    {
      EncodeRowBase(len, srcs, l, v, src, dest[l], coefs);
      assert dest[l][..len] == EncodeRow(coefs[l], data, len);
      assert dest[l][len..] == dest[l][..][len..];
    }
  }

  /** gf_vect_dot_prod_base: one row, its tables at the start of v. */
  method GfVectDotProdBase(len: nat, vlen: nat, v: array<bv8>, src: seq<array<bv8>>, dest: array<bv8>, ghost row: Vector)
    requires |src| == vlen == |row| && HoldsTables(v[..], [row], vlen)
    requires len <= dest.Length && forall j | 0 <= j < vlen :: len <= src[j].Length
    requires dest != v && dest !in src
    modifies dest
    ensures dest[..] == EncodeRow(row, Contents(src, len), len) + old(dest[len..])
  {
    hide HoldsTables, EncodeRow;
    EncodeRowBase(len, vlen, 0, v, src, dest, [row]);
  }

  /** gf_vect_mad_base: adds a multiple of `src` to `dest`. */
  method GfVectMadBase(len: nat, off: nat, v: array<bv8>, src: array<bv8>, dest: array<bv8>)
    requires off + 1 < v.Length && len <= src.Length && len <= dest.Length && dest != v && dest != src
    modifies dest
    ensures dest[..] == Plus(old(dest[..len]), Times(v[off + 1], src[..len])) + old(dest[len..])
  {
    hide Xor, Mul;
    for i := 0 to len
      invariant forall b | 0 <= b < i :: dest[b] == Xor(old(dest[b]), Mul(v[off + 1], src[b]))
      invariant dest[i..] == old(dest[i..])
    {
      assert dest[i] == dest[i..][0] == old(dest[i..])[0];
      MulComm(src[i], v[off + 1]);
      var s := dest[i];
      s := Xor(s, Mul(src[i], v[off + 1]));
      dest[i] := s;
      assert dest[i + 1..] == dest[i..][1..];
    }
    assert dest[..len] == Plus(old(dest[..len]), Times(v[off + 1], src[..len]));
  }

  method EcEncodeDataUpdateBase(len: nat, k: nat, rows: nat, vecI: nat, v: array<bv8>, data: array<bv8>,
                                dest: seq<array<bv8>>, ghost coefs: Matrix)
    requires |dest| == rows && IsMatrix(coefs, rows, k) && vecI < k && HoldsTables(v[..], coefs, k)
    requires len <= data.Length && forall l | 0 <= l < rows :: len <= dest[l].Length
    requires Separate([data], dest, v)
    modifies dest
    ensures Contents(dest, len) == UpdateAll(old(Contents(dest, len)), coefs, vecI, old(data[..len]))
    ensures forall l | 0 <= l < rows :: dest[l][len..] == old(dest[l][len..])
  {
    hide Xor, Mul, HoldsTables;
    assert [data][0] !in dest;
    for l := 0 to rows
      invariant v[..] == old(v[..]) && data[..] == old(data[..])
      invariant forall r | 0 <= r < l ::
                  dest[r][..len] == Plus(old(dest[r][..len]), Times(coefs[r][vecI], old(data[..len])))
      invariant forall r | l <= r < rows :: dest[r][..] == old(dest[r][..])
      invariant forall r | 0 <= r < l :: dest[r][len..] == old(dest[r][len..])
    {
      var off := vecI * 32 + l * k * 32;
      assert off == TableOffset(k, l, vecI);
      CoefficientInTable(v[..], coefs, k, l, vecI);
      assert data[..len] == data[..][..len] == old(data[..])[..len];
      GfVectMadBase(len, off, v, data, dest[l]);
      assert dest[l][len..] == dest[l][..][len..];
    }
  }
}
