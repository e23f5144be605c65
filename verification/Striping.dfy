/** Pages striped over the data shards: address translation, splitting and joining. */
module Striping {
  import opened Matrices

  // ---------- Address translation ----------

  /** Slab number and offset inside the slab of a device address. */
  function SlabOf(start: nat, slabSize: nat): nat
    requires slabSize > 0
  {
    start / slabSize
  }

  function OffsetOf(start: nat, slabSize: nat): nat
    requires slabSize > 0
  {
    start % slabSize
  }

  /** The range of a shard's chunk that a request touches: start and length. */
  function ShardStart(start: nat, slabSize: nat, k: nat): nat
    requires slabSize > 0 && k > 0
  {
    OffsetOf(start, slabSize) / k
  }

  lemma ProductSign(d: int, w: nat)
    requires w > 0
    ensures d >= 1 ==> d * w >= w
    ensures d <= -1 ==> d * w + w <= 0
  {
    if d >= 1 {
      assert (d - 1) * w >= 0;
    } else if d <= -1 {
      assert (-d - 1) * w >= 0;
    }
  }

  lemma DivUnique(x: nat, w: nat, q: nat, r: nat)
    requires r < w && x == q * w + r
    ensures x / w == q && x % w == r
  {
    var d := q - x / w;
    assert d * w == q * w - x / w * w;
    assert x == x / w * w + x % w;
    ProductSign(d, w);
  }

  lemma MultipleDivides(a: nat, k: nat)
    requires k > 0
    ensures a * k / k == a && a * k % k == 0
  {
    DivUnique(a * k, k, a, 0);
  }

  lemma DivideExactly(q: nat, w: nat, k: nat)
    requires k > 0
    ensures q * (k * w) / k == q * w
  {
    assert q * (k * w) == (q * w) * k;
    MultipleDivides(q * w, k);
  }

  lemma ProductMonotone(p: nat, q: nat, w: nat)
    requires p <= q
    ensures p * w <= q * w && (p < q ==> p * w + w <= q * w)
  {
    var d: nat := q - p;
    assert q * w == p * w + d * w;
    NotNegative(d, w);
    if d > 0 {
      assert d * w == (d - 1) * w + w;
      NotNegative(d - 1, w);
    }
  }

  lemma NotNegative(a: nat, b: nat)
    ensures a * b >= 0
  {}

  /** In a slab of c pages, a page-aligned address is page q of its slab. */
  lemma PageNumber(start: nat, page: nat, c: nat) returns (q: nat)
    requires page > 0 && c > 0 && c * page > 0 && start % page == 0
    ensures q < c && OffsetOf(start, c * page) == q * page
    ensures start == (SlabOf(start, c * page) * c + q) * page
  {
    var p := start / page;
    var s := p / c;
    q := p % c;
    assert p == s * c + q;
    assert start == p * page == s * (c * page) + q * page;
    ProductMonotone(q, c, page);
    DivUnique(start, c * page, s, q * page);
  }

  /** A page-aligned request inside one slab of k chunks stays inside every chunk. */
  lemma RequestFits(start: nat, count: nat, k: nat, w: nat, c: nat)
    requires k > 0 && w > 0 && c > 0 && c * (k * w) > 0 && start % (k * w) == 0
    requires OffsetOf(start, c * (k * w)) + count * (k * w) <= c * (k * w)
    ensures ShardStart(start, c * (k * w), k) % w == 0
    ensures ShardStart(start, c * (k * w), k) + count * (k * w) / k <= c * w
  {
    var page := k * w;
    var q := PageNumber(start, page, c);
    DivideExactly(q, w, k);
    DivideExactly(count, w, k);
    MultipleDivides(q, w);
    assert (q + count) * page == q * page + count * page;
    assert (q + count) * w == q * w + count * w;
    ProductSign(q + count - c, page);
    assert (q + count - c) * page == (q + count) * page - c * page;
    ProductMonotone(q + count, c, w);
  }

  /** Distinct pages lie in different slabs or in disjoint ranges of every chunk. */
  lemma PagesDisjoint(a: nat, b: nat, k: nat, w: nat, c: nat)
    requires k > 0 && w > 0 && c > 0 && c * (k * w) > 0 && a != b
    requires a % (k * w) == 0 && b % (k * w) == 0
    ensures SlabOf(a, c * (k * w)) != SlabOf(b, c * (k * w))
         || ShardStart(a, c * (k * w), k) + w <= ShardStart(b, c * (k * w), k)
         || ShardStart(b, c * (k * w), k) + w <= ShardStart(a, c * (k * w), k)
  {
    var page := k * w;
    var p := PageNumber(a, page, c);
    var q := PageNumber(b, page, c);
    DivideExactly(p, w, k);
    DivideExactly(q, w, k);
    if p < q {
      ProductMonotone(p, q, w);
    } else if q < p {
      ProductMonotone(q, p, w);
    }
  }

  // ---------- Splitting and joining ----------

  /** Shard i holds strip i, w bytes wide, of every page. */
  function Split(pages: Matrix, k: nat, w: nat): (shards: Matrix)
    requires w > 0 && IsMatrix(pages, |pages|, k * w)
    ensures IsMatrix(shards, k, |pages| * w)
  {
    seq(k, i requires 0 <= i < k => seq(|pages| * w, x requires 0 <= x < |pages| * w => StripByte(pages, k, w, i, x)))
  }

  function StripByte(pages: Matrix, k: nat, w: nat, i: nat, x: nat): bv8
    requires w > 0 && i < k && x < |pages| * w && IsMatrix(pages, |pages|, k * w)
  {
    StripBounds(|pages|, k, w, i, x);
    pages[x / w][i * w + x % w]
  }

  lemma StripBounds(count: nat, k: nat, w: nat, i: nat, x: nat)
    requires w > 0 && i < k && x < count * w
    ensures x / w < count && i * w + x % w < k * w
  {
    ProductSign(x / w - count, w);
    assert (x / w - count) * w == x / w * w - count * w;
    ProductMonotone(i, k, w);
  }

  /** Page t is put together from strip t of every data shard. */
  function Join(shards: Matrix, k: nat, w: nat, count: nat): (pages: Matrix)
    requires w > 0 && |shards| >= k && IsMatrix(shards, |shards|, count * w)
    ensures IsMatrix(pages, count, k * w)
  {
    seq(count, t requires 0 <= t < count => seq(k * w, y requires 0 <= y < k * w => PageByte(shards, k, w, count, t, y)))
  }

  function PageByte(shards: Matrix, k: nat, w: nat, count: nat, t: nat, y: nat): bv8
    requires w > 0 && t < count && y < k * w && |shards| >= k && IsMatrix(shards, |shards|, count * w)
  {
    StripBounds(k, count, w, t, y);
    shards[y / w][t * w + y % w]
  }

  /** Byte j of strip i of page t is byte t * w + j of shard i. */
  lemma SplitByte(pages: Matrix, k: nat, w: nat, i: nat, t: nat, j: nat)
    requires w > 0 && IsMatrix(pages, |pages|, k * w) && i < k && t < |pages| && j < w
    ensures t * w + j < |pages| * w && i * w + j < k * w
    ensures Split(pages, k, w)[i][t * w + j] == pages[t][i * w + j]
  {
    ProductMonotone(t, |pages|, w);
    ProductMonotone(i, k, w);
    DivUnique(t * w + j, w, t, j);
    assert Split(pages, k, w)[i][t * w + j] == StripByte(pages, k, w, i, t * w + j);
  }

  lemma JoinByte(shards: Matrix, k: nat, w: nat, count: nat, i: nat, t: nat, j: nat)
    requires w > 0 && |shards| >= k && IsMatrix(shards, |shards|, count * w) && i < k && t < count && j < w
    ensures t * w + j < count * w && i * w + j < k * w
    ensures Join(shards, k, w, count)[t][i * w + j] == shards[i][t * w + j]
  {
    ProductMonotone(t, count, w);
    ProductMonotone(i, k, w);
    DivUnique(i * w + j, w, i, j);
    assert Join(shards, k, w, count)[t][i * w + j] == PageByte(shards, k, w, count, t, i * w + j);
  }

  /** Every position is strip t, byte j for exactly one t and j. */
  lemma Locate(x: nat, w: nat, count: nat) returns (t: nat, j: nat)
    requires w > 0 && x < count * w
    ensures t < count && j < w && x == t * w + j
  {
    t, j := x / w, x % w;
    StripBounds(count, 1, w, 0, x);
  }

  lemma JoinOfSplit(pages: Matrix, k: nat, w: nat)
    requires w > 0 && IsMatrix(pages, |pages|, k * w)
    ensures Join(Split(pages, k, w), k, w, |pages|) == pages
  {
    var shards := Split(pages, k, w);
    var joined := Join(shards, k, w, |pages|);
    hide Join, Split;
    forall t, y | 0 <= t < |pages| && 0 <= y < k * w ensures joined[t][y] == pages[t][y] {
      var i, j := Locate(y, w, k);
      JoinByte(shards, k, w, |pages|, i, t, j);
      SplitByte(pages, k, w, i, t, j);
    }
    forall t | 0 <= t < |pages| ensures joined[t] == pages[t] {
    }
  }

  lemma SplitOfJoin(shards: Matrix, k: nat, w: nat, count: nat)
    requires w > 0 && IsMatrix(shards, k, count * w)
    ensures Split(Join(shards, k, w, count), k, w) == shards
  {
    var pages := Join(shards, k, w, count);
    var split := Split(pages, k, w);
    hide Join, Split;
    forall i, x | 0 <= i < k && 0 <= x < count * w ensures split[i][x] == shards[i][x] {
      var t, j := Locate(x, w, count);
      JoinByte(shards, k, w, count, i, t, j);
      SplitByte(pages, k, w, i, t, j);
    }
    forall i | 0 <= i < k ensures split[i] == shards[i] {
    }
  }

  /** The pages after a run of new pages has been written at page q. */
  function Spliced(pages: Matrix, written: Matrix, q: nat): (r: Matrix)
    requires q + |written| <= |pages|
    ensures |r| == |pages|
  {
    pages[..q] + written + pages[q + |written|..]
  }
}
