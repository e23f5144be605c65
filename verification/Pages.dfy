/** Moving pages through the erasure coder: what the write path encodes and what the read path puts together. */
module Pages {
  import opened GaloisField
  import opened Matrices
  import opened GfTables
  import opened Cauchy
  import opened MulTables
  import opened Encode
  import opened DotKernels
  import opened Decode
  import opened Striping

  // ---------- The byte that a shard must hold ----------

  /** Byte j of every strip of a page. */
  function PageColumn(page: Vector, k: nat, w: nat, j: nat): (column: Vector)
    requires |page| == k * w && j < w
    ensures |column| == k
  {
    seq(k, i requires 0 <= i < k => StripeByte(page, k, w, i, j))
  }

  function StripeByte(page: Vector, k: nat, w: nat, i: nat, j: nat): bv8
    requires |page| == k * w && i < k && j < w
  {
    ProductMonotone(i, k, w);
    page[i * w + j]
  }

  /** Byte j of the strip that shard i holds for a page. */
  function ShardByte(page: Vector, k: nat, w: nat, i: nat, j: nat): bv8
    requires |page| == k * w && j < w
  {
    Dot(CauchyRow(k, i), PageColumn(page, k, w, j), k)
  }

  lemma DataByte(page: Vector, k: nat, w: nat, i: nat, j: nat)
    requires |page| == k * w && i < k && j < w
    ensures ShardByte(page, k, w, i, j) == StripeByte(page, k, w, i, j)
  {
    hide Xor, Mul, Dot, StripeByte;
    DotUnit(CauchyRow(k, i), PageColumn(page, k, w, j), k, i);
  }

  lemma SplitColumn(pages: Matrix, k: nat, w: nat, t: nat, j: nat)
    requires w > 0 && IsMatrix(pages, |pages|, k * w) && t < |pages| && j < w
    ensures t * w + j < |pages| * w
    ensures Column(Split(pages, k, w), t * w + j) == PageColumn(pages[t], k, w, j)
  {
    ProductMonotone(t, |pages|, w);
    var column := Column(Split(pages, k, w), t * w + j);
    hide Split;
    forall i | 0 <= i < k ensures column[i] == PageColumn(pages[t], k, w, j)[i] {
      SplitByte(pages, k, w, i, t, j);
    }
  }

  lemma CodewordByte(m: nat, k: nat, w: nat, pages: Matrix, i: nat, t: nat, j: nat)
    requires k <= m && w > 0 && IsMatrix(pages, |pages|, k * w) && i < m && t < |pages| && j < w
    ensures t * w + j < |pages| * w
    ensures Codeword(m, k, Split(pages, k, w), |pages| * w)[i][t * w + j] == ShardByte(pages[t], k, w, i, j)
  {
    hide Xor, Mul, Dot, GfInv, Split, CauchyRow, PageColumn;
    SplitColumn(pages, k, w, t, j);
  }

  /** Recovery works byte by byte, so also for shards that are no codeword elsewhere. */
  lemma RecoveredByte(decode: Matrix, rows: seq<nat>, errList: seq<nat>, k: nat, m: nat, w: nat,
                      survivors: Matrix, len: nat, b: nat, page: Vector, j: nat, p: nat)
    requires k <= m && RowChoice(rows, m, k) && |errList| <= |decode| && IsMatrix(decode, |decode|, k)
    requires forall q | 0 <= q < |errList| :: errList[q] < m
    requires Recovers(decode, rows, errList, k, m)
    requires IsMatrix(survivors, k, len) && b < len && |page| == k * w && j < w && p < |errList|
    requires forall i | 0 <= i < k :: survivors[i][b] == ShardByte(page, k, w, rows[i], j)
    ensures EncodeRow(decode[p], survivors, len)[b] == ShardByte(page, k, w, errList[p], j)
  {
    hide Xor, Mul, Dot, GfInv, CauchyRow, PageColumn;
    var x := PageColumn(page, k, w, j);
    forall i | 0 <= i < k ensures Column(survivors, b)[i] == Apply(Chosen(m, k, rows), x)[i] {}
    assert Column(survivors, b) == Apply(Chosen(m, k, rows), x);
  }

  // ---------- Buffers ----------

  /** memcpy into a buffer. */
  method MemCpy(dest: array<bv8>, off: nat, src: Vector)
    requires off + |src| <= dest.Length
    modifies dest
    ensures dest[..] == old(dest[..off]) + src + old(dest[off + |src|..])
  {
    forall j | 0 <= j < |src| {
      dest[off + j] := src[j];
    }
  }

  /** One buffer for every shard. */
  method Buffers(content: Matrix, len: nat) returns (bufs: seq<array<bv8>>)
    requires IsMatrix(content, |content|, len)
    ensures |bufs| == |content| && fresh(bufs)
    ensures forall i | 0 <= i < |bufs| :: bufs[i].Length == len && bufs[i][..] == content[i]
    ensures forall i, j | 0 <= i < j < |bufs| :: bufs[i] != bufs[j]
  {
    bufs := [];
    for i := 0 to |content|
      invariant |bufs| == i && fresh(bufs)
      invariant forall r | 0 <= r < i :: bufs[r].Length == len && bufs[r][..] == content[r]
      invariant forall r, s | 0 <= r < s < i :: bufs[r] != bufs[s]
    {
      var buf := new bv8[len];
      MemCpy(buf, 0, content[i]);
      assert buf[..] == content[i];
      bufs := bufs + [buf];
    }
  }

  /** The memcpy loops of IS_rdma_write: strip i of every page goes to buffer i. */
  method SplitInto(bufs: seq<array<bv8>>, pages: Matrix, k: nat, w: nat)
    requires w > 0 && IsMatrix(pages, |pages|, k * w) && k <= |bufs|
    requires forall i | 0 <= i < |bufs| :: bufs[i].Length == |pages| * w
    requires forall i, j | 0 <= i < j < |bufs| :: bufs[i] != bufs[j]
    modifies bufs
    ensures forall i | 0 <= i < k :: bufs[i][..] == Split(pages, k, w)[i]
  {
    hide Split;
    ghost var shards := Split(pages, k, w);
    for t := 0 to |pages|
      invariant t * w <= |pages| * w
      invariant forall i | 0 <= i < k :: bufs[i][..t * w] == shards[i][..t * w]
    {
      ProductMonotone(t, |pages|, w);
      SplitPage(bufs, pages, k, w, t, t * w);
      assert (t + 1) * w == t * w + w;
    }
    forall i | 0 <= i < k ensures bufs[i][..] == shards[i] {
      assert bufs[i][..|pages| * w] == bufs[i][..];
    }
  }

  /** The copies of one page. */
  method SplitPage(bufs: seq<array<bv8>>, pages: Matrix, k: nat, w: nat, t: nat, at: nat)
    requires w > 0 && IsMatrix(pages, |pages|, k * w) && k <= |bufs| && t < |pages| && at == t * w
    requires at + w <= |pages| * w
    requires forall i | 0 <= i < |bufs| :: bufs[i].Length == |pages| * w
    requires forall i, j | 0 <= i < j < |bufs| :: bufs[i] != bufs[j]
    requires forall i | 0 <= i < k :: bufs[i][..at] == Split(pages, k, w)[i][..at]
    modifies bufs
    ensures forall i | 0 <= i < k :: bufs[i][..at + w] == Split(pages, k, w)[i][..at + w]
  {
    hide Split;
    ghost var shards := Split(pages, k, w);
    for i := 0 to k
      invariant forall r | 0 <= r < i :: bufs[r][..at + w] == shards[r][..at + w]
      invariant forall r | i <= r < k :: bufs[r][..at] == shards[r][..at]
    {
      Strip(pages, k, w, i, t);
      MemCpy(bufs[i], at, pages[t][i * w..i * w + w]);
      assert shards[i][..at + w] == shards[i][..at] + shards[i][at..at + w];
    }
  }

  lemma Strip(pages: Matrix, k: nat, w: nat, i: nat, t: nat)
    requires w > 0 && IsMatrix(pages, |pages|, k * w) && i < k && t < |pages|
    ensures t * w + w <= |pages| * w && i * w + w <= k * w
    ensures Split(pages, k, w)[i][t * w..t * w + w] == pages[t][i * w..i * w + w]
  {
    ProductMonotone(t, |pages|, w);
    ProductMonotone(i, k, w);
    var strip := Split(pages, k, w)[i][t * w..t * w + w];
    var part := pages[t][i * w..i * w + w];
    hide Split;
    forall j | 0 <= j < w ensures strip[j] == part[j] {
      SplitByte(pages, k, w, i, t, j);
    }
  }

  /** The write path up to the posts: every shard of the code word of the pages. */
  method EncodePages(pages: Matrix, k: nat, m: nat, w: nat, encodeTbls: array<bv8>) returns (word: Matrix)
    requires 1 <= k <= m && w > 0 && IsMatrix(pages, |pages|, k * w)
    requires HoldsTables(encodeTbls[..], CauchyMatrix(m, k)[k..], k)
    ensures word == Codeword(m, k, Split(pages, k, w), |pages| * w)
  {
    hide HoldsTables, Split, CauchyMatrix, EncodeAll, Codeword, ZeroShards;
    var len := |pages| * w;
    ghost var shards := Split(pages, k, w);
    var bufs := Buffers(ZeroShards(m, len), len);
    SplitInto(bufs, pages, k, w);
    AddParities(bufs, shards, k, m, len, encodeTbls);
    word := Snapshot(bufs, len);
  }

  method AddParities(bufs: seq<array<bv8>>, ghost shards: Matrix, k: nat, m: nat, len: nat, encodeTbls: array<bv8>)
    requires 1 <= k <= m == |bufs| && IsMatrix(shards, k, len)
    requires HoldsTables(encodeTbls[..], CauchyMatrix(m, k)[k..], k)
    requires forall i | 0 <= i < m :: bufs[i].Length == len && bufs[i] != encodeTbls
    requires forall i, j | 0 <= i < j < m :: bufs[i] != bufs[j]
    requires forall i | 0 <= i < k :: bufs[i][..] == shards[i]
    modifies bufs
    ensures forall i | 0 <= i < m :: bufs[i][..] == Codeword(m, k, shards, len)[i]
  {
    hide HoldsTables, CauchyMatrix, EncodeAll, Codeword;
    var data, parities := bufs[..k], bufs[k..];
    forall i | 0 <= i < k ensures Contents(data, len)[i] == shards[i] {
      assert bufs[i][..len] == bufs[i][..];
    }
    assert Contents(data, len) == shards;
    forall i, l | 0 <= i < k && 0 <= l < m - k ensures data[i] != parities[l] {
      assert data[i] == bufs[i] && parities[l] == bufs[k + l];
    }
    EcEncodeDataAvx(len, k, m - k, encodeTbls, data, parities, CauchyMatrix(m, k)[k..]);
    DataShards(m, k, shards, len);
    forall i | 0 <= i < m ensures bufs[i][..] == Codeword(m, k, shards, len)[i] {
      if i < k {
        assert bufs[i] == data[i] && Codeword(m, k, shards, len)[..k][i] == shards[i];
      } else {
        assert bufs[i] == parities[i - k] && Contents(parities, len)[i - k] == parities[i - k][..len] == parities[i - k][..];
        assert Codeword(m, k, shards, len)[k..][i - k] == Codeword(m, k, shards, len)[i];
      }
    }
  }

  method Snapshot(bufs: seq<array<bv8>>, len: nat) returns (word: Matrix)
    requires forall i | 0 <= i < |bufs| :: bufs[i].Length == len
    ensures IsMatrix(word, |bufs|, len) && forall i | 0 <= i < |bufs| :: word[i] == bufs[i][..]
  {
    word := [];
    for i := 0 to |bufs|
      invariant |word| == i && forall r | 0 <= r < i :: word[r] == bufs[r][..]
    {
      word := word + [bufs[i][..]];
    }
  }

  // ---------- Putting pages together ----------

  method PickBuffers(bufs: seq<array<bv8>>, rows: seq<nat>) returns (picked: seq<array<bv8>>)
    requires forall i | 0 <= i < |rows| :: rows[i] < |bufs|
    ensures |picked| == |rows| && forall i | 0 <= i < |rows| :: picked[i] == bufs[rows[i]]
  {
    picked := [];
    for i := 0 to |rows|
      invariant |picked| == i && forall r | 0 <= r < i :: picked[r] == bufs[rows[r]]
    {
      picked := picked + [bufs[rows[i]]];
    }
  }

  /** The recovery step of client_read_done: lost shards are encoded from the survivors, in place. */
  method RecoverShards(shards: Matrix, k: nat, m: nat, len: nat, nsrcerrs: nat, errList: seq<nat>, decodeIndex: seq<nat>,
                       decodeTbls: array<bv8>, ghost decode: Matrix) returns (full: Matrix)
    requires 1 <= k && IsMatrix(shards, m, len) && forall p | 0 <= p < |errList| :: errList[p] < m
    requires Distinct(errList)
    requires nsrcerrs > 0 ==> |decodeIndex| == k && forall i | 0 <= i < k :: decodeIndex[i] < m && decodeIndex[i] !in errList
    requires nsrcerrs > 0 ==> IsMatrix(decode, |errList|, k) && HoldsTables(decodeTbls[..], decode, k)
    ensures IsMatrix(full, m, len)
    ensures forall i | 0 <= i < m && (nsrcerrs == 0 || i !in errList) :: full[i] == shards[i]
    ensures nsrcerrs > 0 ==> forall p | 0 <= p < |errList| ::
              full[errList[p]] == EncodeRow(decode[p], Shards(shards, decodeIndex), len)
  {
    hide HoldsTables, EncodeRow, EncodeAll;
    var bufs := Buffers(shards, len);
    if nsrcerrs > 0 {
      RecoverInto(bufs, shards, k, m, len, errList, decodeIndex, decodeTbls, decode);
    }
    full := Snapshot(bufs, len);
  }

  method RecoverInto(bufs: seq<array<bv8>>, ghost shards: Matrix, k: nat, m: nat, len: nat, errList: seq<nat>,
                     decodeIndex: seq<nat>, decodeTbls: array<bv8>, ghost decode: Matrix)
    requires 1 <= k && IsMatrix(shards, m, len) && |bufs| == m && forall p | 0 <= p < |errList| :: errList[p] < m
    requires forall i | 0 <= i < m :: bufs[i].Length == len && bufs[i][..] == shards[i] && bufs[i] != decodeTbls
    requires forall i, j | 0 <= i < j < m :: bufs[i] != bufs[j]
    requires Distinct(errList) && |decodeIndex| == k && forall i | 0 <= i < k :: decodeIndex[i] < m && decodeIndex[i] !in errList
    requires IsMatrix(decode, |errList|, k) && HoldsTables(decodeTbls[..], decode, k)
    modifies bufs
    ensures forall i | 0 <= i < m && i !in errList :: bufs[i][..] == shards[i]
    ensures forall p | 0 <= p < |errList| :: bufs[errList[p]][..] == EncodeRow(decode[p], Shards(shards, decodeIndex), len)
  {
    hide HoldsTables, EncodeRow, EncodeAll;
    var recov := PickBuffers(bufs, errList);
    var data := PickBuffers(bufs, decodeIndex);
    ghost var survivors := Shards(shards, decodeIndex);
    forall i | 0 <= i < k ensures Contents(data, len)[i] == survivors[i] {
      assert data[i][..len] == data[i][..];
    }
    assert Contents(data, len) == survivors;
    forall i, p | 0 <= i < k && 0 <= p < |errList| ensures data[i] != recov[p] {
      assert decodeIndex[i] != errList[p];
    }
    EcEncodeDataAvx(len, k, |errList|, decodeTbls, data, recov, decode);
    forall p | 0 <= p < |errList| ensures bufs[errList[p]][..] == EncodeRow(decode[p], survivors, len) {
      assert Contents(recov, len)[p] == recov[p][..len] == recov[p][..];
      EncodedAt(decode, survivors, len, p);
    }
    forall i | 0 <= i < m && i !in errList ensures bufs[i][..] == shards[i] {
      assert bufs[i] !in recov;
    }
  }

  lemma EncodedAt(coefs: Matrix, data: Matrix, len: nat, p: nat)
    requires IsMatrix(data, |data|, len) && IsMatrix(coefs, |coefs|, |data|) && p < |coefs|
    ensures EncodeAll(coefs, data, len)[p] == EncodeRow(coefs[p], data, len)
  {}

  /** The memcpy loops of client_read_done: strip i of every page comes from buffer i. */
  method JoinPages(shards: Matrix, k: nat, w: nat, count: nat) returns (pages: Matrix)
    requires w > 0 && k <= |shards| && IsMatrix(shards, |shards|, count * w)
    ensures pages == Join(shards, k, w, count)
  {
    hide Join;
    ghost var joined := Join(shards, k, w, count);
    pages := [];
    for t := 0 to count
      invariant |pages| == t && forall s | 0 <= s < t :: pages[s] == joined[s]
    {
      var page := new bv8[k * w];
      for i := 0 to k
        invariant i * w <= k * w && page[..i * w] == joined[t][..i * w]
      {
        Piece(shards, k, w, count, i, t);
        MemCpy(page, i * w, shards[i][t * w..t * w + w]);
        assert (i + 1) * w == i * w + w;
        assert joined[t][..i * w + w] == joined[t][..i * w] + joined[t][i * w..i * w + w];
      }
      pages := pages + [page[..]];
    }
  }

  lemma Piece(shards: Matrix, k: nat, w: nat, count: nat, i: nat, t: nat)
    requires w > 0 && k <= |shards| && IsMatrix(shards, |shards|, count * w) && i < k && t < count
    ensures t * w + w <= count * w && i * w + w <= k * w
    ensures Join(shards, k, w, count)[t][i * w..i * w + w] == shards[i][t * w..t * w + w]
  {
    ProductMonotone(t, count, w);
    ProductMonotone(i, k, w);
    var piece := Join(shards, k, w, count)[t][i * w..i * w + w];
    var strip := shards[i][t * w..t * w + w];
    hide Join;
    forall j | 0 <= j < w ensures piece[j] == strip[j] {
      JoinByte(shards, k, w, count, i, t, j);
    }
  }
}
