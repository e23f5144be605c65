/** The read path of a coding group, and exactly when it returns the right pages. */
module ReadPath {
  import opened GaloisField
  import opened Matrices
  import opened GaussJordan
  import opened GfTables
  import opened Cauchy
  import opened MulTables
  import opened Encode
  import opened Decode
  import opened Striping
  import opened SlabMap
  import opened ShardIo
  import opened Pages
  import opened ShardStore

  // ---------- What the decoder relies on ----------

  /** What IS_disconnect_handler leaves for the reads: the error lists, which shards a recovery uses, the rows and the
      tables that it multiplies them with, and the inverse from which the rows were made. */
  datatype Decoder = Decoder(inErr: seq<bool>, errList: seq<nat>, nsrcerrs: nat, decodeIndex: seq<nat>, decode: Matrix,
                             inverse: Matrix, tables: seq<bv8>)

  /** The recovery finds its rows and its sources among m shards. */
  ghost predicate DecoderFits(d: Decoder, m: nat) {
    d.nsrcerrs > 0 ==>
      IsMatrix(d.decode, |d.errList|, |d.decodeIndex|) && forall i | 0 <= i < |d.decodeIndex| :: d.decodeIndex[i] < m
  }

  /** The decoding tables fit the error lists. */
  ghost predicate DecoderReady(k: nat, m: nat, d: Decoder)
  {
    && ErrorLists(d.inErr, d.errList, d.nsrcerrs, k, m)
    && (d.nsrcerrs > 0 ==>
          && k <= |Survivors(d.inErr, m)| && d.decodeIndex == Survivors(d.inErr, m)[..k] && RowChoice(d.decodeIndex, m, k)
          && IsMatrix(d.decode, |d.errList|, k) && Recovers(d.decode, d.decodeIndex, d.errList, k, m)
          && IsMatrix(d.inverse, k, k) && IsInverse(d.inverse, Chosen(m, k, d.decodeIndex), k)
          && HoldsTables(d.tables, d.decode, k))
  }

  /** Nothing that the read needs is missing: without recovery every data shard is mapped, and with recovery every source
      of the recovery is. */
  predicate ReadsRight(k: nat, lost: seq<bool>, d: Decoder) {
    if d.nsrcerrs == 0 then forall i | 0 <= i < k && i < |lost| :: !lost[i]
    else forall i | 0 <= i < |d.decodeIndex| && d.decodeIndex[i] < |lost| :: !lost[d.decodeIndex[i]]
  }

  // ---------- What is fetched ----------

  lemma DataSurvivorFetched(lost: seq<bool>, k: nat, m: nat, i: nat)
    requires |lost| == m && i < k <= m && k <= |Survivors(lost, m)| && !lost[i]
    ensures i in Survivors(lost, m)[..k]
  {
    SurvivorsBetween(lost, i + 1, m);
    SurvivorsBetween(lost, 0, i + 1);
    var before := Survivors(lost, i);
    assert Survivors(lost, i + 1) == before + [i];
    assert Survivors(lost, m)[|before|] == i;
  }

  /** Losing more shards leaves fewer survivors before each one. */
  lemma {:induction false} FewerBefore(inErr: seq<bool>, lost: seq<bool>, n: nat)
    requires |inErr| == |lost| && n <= |lost| && forall i | 0 <= i < |lost| && inErr[i] :: lost[i]
    ensures |Survivors(lost, n)| <= |Survivors(inErr, n)|
  {
    if n == 0 {
    } else {
      FewerBefore(inErr, lost, n - 1);
    }
  }

  /** A survivor stands behind those before it. */
  lemma SurvivorAt(lost: seq<bool>, m: nat, r: nat)
    requires r < m <= |lost| && !lost[r]
    ensures |Survivors(lost, r)| < |Survivors(lost, m)| && Survivors(lost, m)[|Survivors(lost, r)|] == r
  {
    SurvivorsBetween(lost, r + 1, m);
    var before := Survivors(lost, r);
    assert Survivors(lost, r + 1) == before + [r];
    assert Survivors(lost, m)[..|before| + 1][|before|] == r;
  }

  lemma OnePosition(rows: seq<nat>, p: nat, q: nat)
    requires forall i, j | 0 <= i < j < |rows| :: rows[i] < rows[j]
    requires p < |rows| && q < |rows| && rows[p] == rows[q]
    ensures p == q
  {}

  /** A source of the recovery that is still mapped is fetched. */
  lemma SourceFetched(inErr: seq<bool>, lost: seq<bool>, k: nat, m: nat, p: nat)
    requires |inErr| == |lost| == m && forall i | 0 <= i < m && inErr[i] :: lost[i]
    requires p < k <= |Survivors(inErr, m)| && k <= |Survivors(lost, m)| && !lost[Survivors(inErr, m)[p]]
    ensures Survivors(inErr, m)[p] in Survivors(lost, m)[..k]
  {
    var r := Survivors(inErr, m)[p];
    SurvivorAt(inErr, m, r);
    FewerBefore(inErr, lost, r);
    SurvivorAt(lost, m, r);
    OnePosition(Survivors(inErr, m), p, |Survivors(inErr, r)|);
    assert Survivors(lost, m)[..k][|Survivors(lost, r)|] == r;
  }

  lemma ErrorFacts(inErr: seq<bool>, errList: seq<nat>, nsrcerrs: nat, k: nat, m: nat)
    requires ErrorLists(inErr, errList, nsrcerrs, k, m)
    ensures |inErr| == m && k <= m && Distinct(errList) && nsrcerrs <= |errList|
    ensures forall p | 0 <= p < |errList| :: errList[p] < m && inErr[errList[p]] && (p < nsrcerrs <==> errList[p] < k)
    ensures forall i | 0 <= i < m && inErr[i] :: i in errList
    ensures nsrcerrs == 0 ==> forall i | 0 <= i < k :: !inErr[i]
  {}

  lemma ChoiceShape(rows: seq<nat>, m: nat, k: nat)
    requires RowChoice(rows, m, k)
    ensures |rows| == k && forall i | 0 <= i < k :: rows[i] < m
  {}

  lemma FirstSurvivors(lost: seq<bool>, k: nat, m: nat)
    requires |lost| == m && k <= |Survivors(lost, m)|
    ensures |Survivors(lost, m)[..k]| == k && Distinct(Survivors(lost, m)[..k])
    ensures forall r | 0 <= r < k :: Survivors(lost, m)[..k][r] < m && !lost[Survivors(lost, m)[..k][r]]
  {}

  /** What ReadsRight means for the fetched shards. */
  lemma EnoughFetched(k: nat, m: nat, lost: seq<bool>, d: Decoder)
    requires DecoderReady(k, m, d) && |lost| == m && k <= |Survivors(lost, m)|
    requires forall i | 0 <= i < m && d.inErr[i] :: lost[i]
    requires forall i | 0 <= i < |d.decodeIndex| :: d.decodeIndex[i] < m
    requires ReadsRight(k, lost, d)
    ensures forall i | 0 <= i < k && (d.nsrcerrs == 0 || i !in d.errList) :: i in Survivors(lost, m)[..k]
    ensures d.nsrcerrs > 0 ==> |d.decodeIndex| == k && forall p | 0 <= p < k :: d.decodeIndex[p] in Survivors(lost, m)[..k]
  {
    hide Survivors, Recovers, IsInverse, HoldsTables, RowChoice;
    ErrorFacts(d.inErr, d.errList, d.nsrcerrs, k, m);
    if d.nsrcerrs > 0 {
      FirstSurvivors(d.inErr, k, m);
      forall p | 0 <= p < k ensures d.decodeIndex[p] in Survivors(lost, m)[..k] {
        SourceFetched(d.inErr, lost, k, m, p);
      }
    }
    forall i | 0 <= i < k && (d.nsrcerrs == 0 || i !in d.errList) ensures i in Survivors(lost, m)[..k] {
      if d.nsrcerrs > 0 {
        DataSurvivorFetched(d.inErr, k, m, i);
      } else {
        DataSurvivorFetched(lost, k, m, i);
      }
    }
  }

  // ---------- The pages that come back ----------

  /** The buffers after the recovery step. */
  ghost function Recovered(shards: Matrix, d: Decoder, len: nat): (full: Matrix)
    requires IsMatrix(shards, |shards|, len)
    requires DecoderFits(d, |shards|)
    ensures IsMatrix(full, |shards|, len)
  {
    seq(|shards|, r requires 0 <= r < |shards| => RecoveredShard(shards, d, len, r))
  }

  ghost function RecoveredShard(shards: Matrix, d: Decoder, len: nat, r: nat): (shard: Vector)
    requires IsMatrix(shards, |shards|, len) && r < |shards|
    requires DecoderFits(d, |shards|)
    ensures |shard| == len
  {
    if d.nsrcerrs > 0 && r in d.errList
    then EncodeRow(d.decode[Position(d.errList, r)], Shards(shards, d.decodeIndex), len)
    else shards[r]
  }

  function Position(list: seq<nat>, r: nat): (p: nat)
    requires r in list
    ensures p < |list| && list[p] == r
  {
    if list[0] == r then 0 else 1 + Position(list[1..], r)
  }

  /** The buffers of a read: what has been fetched is in them, and it is enough for the recovery and for the pages. */
  ghost predicate Gathered(k: nat, m: nat, w: nat, cbIndex: seq<int>, remote: Matrix, d: Decoder, fetched: seq<nat>,
                           shards: Matrix, q: nat, count: nat)
    requires |cbIndex| == |remote| == m
  {
    && ErrorLists(d.inErr, d.errList, d.nsrcerrs, k, m) && IsMatrix(shards, m, count * w)
    && (d.nsrcerrs > 0 ==>
          && RowChoice(d.decodeIndex, m, k) && IsMatrix(d.decode, |d.errList|, k)
          && Recovers(d.decode, d.decodeIndex, d.errList, k, m) && forall p | 0 <= p < k :: d.decodeIndex[p] in fetched)
    && (forall r | r in fetched :: r < m && cbIndex[r] != NO_CB_MAPPED && q * w + count * w <= |remote[r]|
                                   && shards[r] == remote[r][q * w..q * w + count * w])
    && forall i | 0 <= i < k && (d.nsrcerrs == 0 || i !in d.errList) :: i in fetched
  }

  /** Byte j of strip i of written page t, after recovery. */
  lemma ReadByte(k: nat, m: nat, w: nat, cbIndex: seq<int>, remote: Matrix, pages: Matrix, written: set<nat>, d: Decoder,
                 fetched: seq<nat>, shards: Matrix, q: nat, count: nat, i: nat, t: nat, j: nat)
    requires 1 <= k <= m == |cbIndex| == |remote| && w > 0 && IsMatrix(pages, |pages|, k * w) && q + count <= |pages|
    requires Stored(k, m, w, cbIndex, remote, pages, written) && q * w + count * w <= |pages| * w
    requires Gathered(k, m, w, cbIndex, remote, d, fetched, shards, q, count) && IsMatrix(shards, m, count * w) && DecoderFits(d, m)
    requires i < k && q <= t < q + count && t in written && j < w
    ensures 0 <= (t - q) * w + j < count * w
    ensures RecoveredShard(shards, d, count * w, i)[(t - q) * w + j] == StripeByte(pages[t], k, w, i, j)
  {
    hide ErrorLists, Recovers, EncodeRow, ShardByte, StripeByte, RowChoice, Stored, Position;
    var b := (t - q) * w + j;
    if d.nsrcerrs > 0 {
      ChoiceShape(d.decodeIndex, m, k);
    }
    ProductMonotone(t - q, count, w);
    DataByte(pages[t], k, w, i, j);
    ErrorFacts(d.inErr, d.errList, d.nsrcerrs, k, m);
    forall r | r in fetched ensures shards[r][b] == ShardByte(pages[t], k, w, r, j) {
      FetchedByte(k, m, w, cbIndex, remote, pages, written, shards[r], q, count, r, t, j);
    }
    if d.nsrcerrs > 0 && i in d.errList {
      var p := Position(d.errList, i);
      var survivors := Shards(shards, d.decodeIndex);
      RecoveredByte(d.decode, d.decodeIndex, d.errList, k, m, w, survivors, count * w, b, pages[t], j, p);
    }
  }

  lemma FetchedByte(k: nat, m: nat, w: nat, cbIndex: seq<int>, remote: Matrix, pages: Matrix, written: set<nat>,
                    strip: Vector, q: nat, count: nat, r: nat, t: nat, j: nat)
    requires 1 <= k <= m && w > 0 && IsMatrix(pages, |pages|, k * w) && q + count <= |pages|
    requires Stored(k, m, w, cbIndex, remote, pages, written) && r < m && cbIndex[r] != NO_CB_MAPPED
    requires q * w + count * w <= |pages| * w && strip == remote[r][q * w..q * w + count * w]
    requires q <= t < q + count && t in written && j < w
    ensures 0 <= (t - q) * w + j < count * w && strip[(t - q) * w + j] == ShardByte(pages[t], k, w, r, j)
  {
    hide ShardByte;
    StripPosition(q, count, w, t, j);
    assert ShardHolds(remote[r], pages, k, w, r, t, j);
  }

  /** Where the strips of page t stand in the buffers of a request. */
  lemma StripPosition(q: nat, count: nat, w: nat, t: nat, j: nat)
    requires q <= t < q + count && j < w
    ensures 0 <= (t - q) * w + j < count * w && q * w + ((t - q) * w + j) == t * w + j
  {
    ProductMonotone(t - q, count, w);
    assert (t - q) * w == t * w - q * w;
  }

  lemma ReadPage(k: nat, m: nat, w: nat, cbIndex: seq<int>, remote: Matrix, pages: Matrix, written: set<nat>, d: Decoder,
                 fetched: seq<nat>, shards: Matrix, q: nat, count: nat, t: nat)
    requires 1 <= k <= m == |cbIndex| == |remote| && w > 0 && IsMatrix(pages, |pages|, k * w) && q + count <= |pages|
    requires Stored(k, m, w, cbIndex, remote, pages, written) && q * w + count * w <= |pages| * w
    requires Gathered(k, m, w, cbIndex, remote, d, fetched, shards, q, count) && IsMatrix(shards, m, count * w) && DecoderFits(d, m)
    requires q <= t < q + count && t in written
    ensures Join(Recovered(shards, d, count * w), k, w, count)[t - q] == pages[t]
  {
    hide Stored, Join, Gathered, StripeByte, RecoveredShard, DecoderFits;
    var full := Recovered(shards, d, count * w);
    var page := Join(full, k, w, count)[t - q];
    forall y | 0 <= y < k * w ensures page[y] == pages[t][y] {
      var i, j := Locate(y, w, k);
      ReadByte(k, m, w, cbIndex, remote, pages, written, d, fetched, shards, q, count, i, t, j);
      JoinByte(full, k, w, count, i, t - q, j);
      StripeByteAt(pages[t], k, w, i, j);
    }
  }

  lemma StripeByteAt(page: Vector, k: nat, w: nat, i: nat, j: nat)
    requires |page| == k * w && i < k && j < w
    ensures 0 <= i * w + j < k * w && StripeByte(page, k, w, i, j) == page[i * w + j]
  {
    ProductMonotone(i, k, w);
  }

  /** One buffer for each shard of `count` pages. */
  ghost predicate StripBuffers(shards: Matrix, m: nat, count: nat, w: nat) {
    IsMatrix(shards, m, count * w)
  }

  /** The pages that a read returns, as a function of what is in the slabs and what its buffers held before. */
  ghost function ReadResult(k: nat, m: nat, w: nat, remote: Matrix, fetched: seq<nat>, d: Decoder, q: nat, count: nat,
                            stale: Matrix): (result: Matrix)
    requires 0 < w && k <= m && 0 < m == |remote| && IsMatrix(remote, m, |remote[0]|) && q * w + count * w <= |remote[0]|
    requires StripBuffers(stale, m, count, w)
    requires DecoderFits(d, m)
    ensures IsMatrix(result, count, k * w)
  {
    var shards := Filled(remote, fetched, stale, q * w, count * w);
    Join(Recovered(shards, d, count * w), k, w, count)
  }

  lemma PositionOf(list: seq<nat>, p: nat)
    requires Distinct(list) && p < |list|
    ensures Position(list, list[p]) == p
  {}

  /** The recovery step does what Recovered says. */
  lemma RecoveredIs(full: Matrix, shards: Matrix, d: Decoder, len: nat)
    requires IsMatrix(shards, |shards|, len) && IsMatrix(full, |shards|, len) && Distinct(d.errList)
    requires DecoderFits(d, |shards|)
    requires forall p | 0 <= p < |d.errList| :: d.errList[p] < |shards|
    requires forall i | 0 <= i < |shards| && (d.nsrcerrs == 0 || i !in d.errList) :: full[i] == shards[i]
    requires d.nsrcerrs > 0 ==> forall p | 0 <= p < |d.errList| ::
               full[d.errList[p]] == EncodeRow(d.decode[p], Shards(shards, d.decodeIndex), len)
    ensures full == Recovered(shards, d, len)
  {
    hide EncodeRow, Position;
    forall r | 0 <= r < |shards| ensures full[r] == RecoveredShard(shards, d, len, r) {
      if d.nsrcerrs > 0 && r in d.errList {
        var p := Position(d.errList, r);
        assert full[d.errList[p]] == EncodeRow(d.decode[p], Shards(shards, d.decodeIndex), len);
      }
    }
  }

  /** IS_rdma_read and client_read_done: posts, waits, recovers and puts the pages together. With fewer than k mapped
      shards the search for a parity leaves cb_index, and nothing is said about what follows. */
  method ReadGroup(k: nat, m: nat, w: nat, cbIndex: seq<int>, slots: seq<int>, memory: Memory, size: nat,
                   errList: seq<nat>, nsrcerrs: nat, decodeIndex: seq<nat>, decodeTbls: array<bv8>, ghost d: Decoder,
                   at: nat, ghost q: nat, count: nat, stale: Matrix)
    returns (inside: bool, result: Matrix)
    requires 1 <= k <= m == |cbIndex| && w > 0 && StripBuffers(stale, m, count, w) && at == q * w && at + count * w <= size
    requires Addressed(cbIndex, slots, |memory|) && IsMemory(memory, |memory|, size)
    requires d == Decoder(d.inErr, errList, nsrcerrs, decodeIndex, d.decode, d.inverse, decodeTbls[..]) && DecoderReady(k, m, d)
    ensures inside <==> k <= |Survivors(Unmapped(cbIndex), m)|
    ensures inside ==> result == ReadResult(k, m, w, Group(memory, cbIndex, slots, size), Survivors(Unmapped(cbIndex), m)[..k],
                                            d, q, count, stale)
  {
    hide HoldsTables, Survivors, Join, ErrorLists, RowChoice, Recovers, IsInverse, Unmapped, EncodeRow, IsMemory, Group;
    ErrorFacts(d.inErr, errList, nsrcerrs, k, m);
    if nsrcerrs > 0 {
      ChoiceShape(decodeIndex, m, k);
      FirstSurvivors(d.inErr, k, m);
    }
    var posted, j;
    inside, posted, j := PostReads(cbIndex, k, m);
    if !inside {
      result := [];
      return;
    }
    ghost var fetched := Survivors(Unmapped(cbIndex), m)[..k];
    FirstSurvivors(Unmapped(cbIndex), k, m);
    VisitedMapped(cbIndex, k, m);
    var visited, fired := WaitForReads(cbIndex, k, m, j);
    var shards := Receive(memory, cbIndex, slots, visited, stale, at, count * w, size);
    var full := RecoverShards(shards, k, m, count * w, nsrcerrs, errList, decodeIndex, decodeTbls, d.decode);
    RecoveredIs(full, shards, d, count * w);
    result := JoinPages(full, k, w, count);
  }

  lemma VisitedMapped(cbIndex: seq<int>, k: nat, m: nat)
    requires |cbIndex| == m && k <= |Survivors(Unmapped(cbIndex), m)|
    ensures forall r | 0 <= r < k :: Survivors(Unmapped(cbIndex), m)[..k][r] < m
    ensures forall r | 0 <= r < k :: cbIndex[Survivors(Unmapped(cbIndex), m)[..k][r]] != NO_CB_MAPPED
  {}

  /** Where nothing that is needed is missing, a read returns every written page. */
  lemma ReadIsRight(k: nat, m: nat, w: nat, cbIndex: seq<int>, remote: Matrix, pages: Matrix, written: set<nat>, d: Decoder,
                    q: nat, count: nat, stale: Matrix)
    requires 1 <= k <= m == |cbIndex| && w > 0 && IsMatrix(pages, |pages|, k * w) && q + count <= |pages|
    requires Stored(k, m, w, cbIndex, remote, pages, written) && StripBuffers(stale, m, count, w)
    requires k <= |Survivors(Unmapped(cbIndex), m)| && q * w + count * w <= |pages| * w
    requires DecoderReady(k, m, d)
    requires forall i | 0 <= i < m && d.inErr[i] :: cbIndex[i] == NO_CB_MAPPED
    requires forall i | 0 <= i < |d.decodeIndex| :: d.decodeIndex[i] < m
    requires ReadsRight(k, Unmapped(cbIndex), d)
    ensures forall t | q <= t < q + count && t in written ::
              ReadResult(k, m, w, remote, Survivors(Unmapped(cbIndex), m)[..k], d, q, count, stale)[t - q] == pages[t]
  {
    hide Survivors, Stored, ErrorLists, RowChoice, Recovers, Recovered, Join, IsInverse, HoldsTables, ReadsRight;
    var fetched := Survivors(Unmapped(cbIndex), m)[..k];
    StoredShape(k, m, w, cbIndex, remote, pages, written);
    EnoughFetched(k, m, Unmapped(cbIndex), d);
    if d.nsrcerrs > 0 {
      ChoiceShape(d.decodeIndex, m, k);
    }
    VisitedMapped(cbIndex, k, m);
    FirstSurvivors(Unmapped(cbIndex), k, m);
    var shards := Filled(remote, fetched, stale, q * w, count * w);
    forall t | q <= t < q + count && t in written
      ensures Join(Recovered(shards, d, count * w), k, w, count)[t - q] == pages[t]
    {
      ReadPage(k, m, w, cbIndex, remote, pages, written, d, fetched, shards, q, count, t);
    }
  }

  // ---------- And where something is missing ----------

  /** A parity that the recovery uses has a share in at least one recovered data shard. */
  lemma SourceMatters(k: nat, m: nat, d: Decoder, idx: nat) returns (p: nat)
    requires DecoderReady(k, m, d) && d.nsrcerrs > 0
    requires idx < k && d.decodeIndex[idx] >= k
    ensures p < d.nsrcerrs && d.decode[p][idx] != 0
  {
    hide Xor, Mul, Dot, GfInv, CauchyRow, HoldsTables, Survivors, ErrorLists, RowChoice, Recovers, IsInverse;
    ErrorFacts(d.inErr, d.errList, d.nsrcerrs, k, m);
    ChoiceShape(d.decodeIndex, m, k);
    if forall p | 0 <= p < d.nsrcerrs :: d.decode[p][idx] == 0 {
      var x := Apply(d.inverse, Unit(k, idx));
      InverseUndoes(d.inverse, m, k, d.decodeIndex, Unit(k, idx));
      forall i | 0 <= i < k ensures x[i] == 0 {
        if i in d.errList {
          var p :| 0 <= p < |d.errList| && d.errList[p] == i;
          LostIsZero(k, m, d.errList, d.decodeIndex, d.decode, p, x, idx);
        } else {
          DataSurvivorFetched(d.inErr, k, m, i);
          var pos :| 0 <= pos < k && d.decodeIndex[pos] == i;
          SurvivorIsUnit(k, m, d.decodeIndex, pos, x);
        }
      }
      ZeroIsNoUnit(k, m, d.decodeIndex, x, idx);
      assert false;
    }
    p :| 0 <= p < d.nsrcerrs && d.decode[p][idx] != 0;
  }

  lemma InverseUndoes(inverse: Matrix, m: nat, k: nat, rows: seq<nat>, y: Vector)
    requires RowChoice(rows, m, k) && IsMatrix(inverse, k, k) && IsInverse(inverse, Chosen(m, k, rows), k) && |y| == k
    ensures Apply(Chosen(m, k, rows), Apply(inverse, y)) == y
  {}

  lemma LostIsZero(k: nat, m: nat, errList: seq<nat>, rows: seq<nat>, decode: Matrix, p: nat, x: Vector, idx: nat)
    requires RowChoice(rows, m, k) && IsMatrix(decode, |errList|, k) && Recovers(decode, rows, errList, k, m)
    requires p < |errList| && errList[p] < k && |x| == k && idx < k && decode[p][idx] == 0
    requires Apply(Chosen(m, k, rows), x) == Unit(k, idx)
    ensures x[errList[p]] == 0
  {
    hide Xor, Mul, Dot, GfInv, CauchyRow;
    var i := errList[p];
    assert Dot(decode[p], Unit(k, idx), k) == Dot(CauchyRow(k, i), x, k);
    DataRow(k, i);
    DotUnit(Unit(k, i), x, k, i);
    DotComm(decode[p], Unit(k, idx), k);
    DotUnit(Unit(k, idx), decode[p], k, idx);
  }

  lemma SurvivorIsUnit(k: nat, m: nat, rows: seq<nat>, pos: nat, x: Vector)
    requires RowChoice(rows, m, k) && |x| == k && pos < k && rows[pos] < k
    ensures Apply(Chosen(m, k, rows), x)[pos] == x[rows[pos]]
  {
    hide Xor, Mul, Dot, GfInv, CauchyRow;
    DataRow(k, rows[pos]);
    DotUnit(Unit(k, rows[pos]), x, k, rows[pos]);
  }

  lemma ZeroIsNoUnit(k: nat, m: nat, rows: seq<nat>, x: Vector, idx: nat)
    requires RowChoice(rows, m, k) && |x| == k && idx < k && forall i | 0 <= i < k :: x[i] == 0
    ensures Apply(Chosen(m, k, rows), x) != Unit(k, idx)
  {
    hide Xor, Mul, Dot, GfInv, CauchyRow;
    var row := Chosen(m, k, rows)[idx];
    assert x == Zeros(k);
    DotComm(row, x, k);
    DotZeros(row, k);
    assert Apply(Chosen(m, k, rows), x)[idx] == 0;
  }

  /** The first byte of strip i in the first page of a read is the first byte of buffer i. */
  lemma FirstByte(k: nat, m: nat, w: nat, remote: Matrix, fetched: seq<nat>, d: Decoder, q: nat, count: nat, stale: Matrix,
                  i: nat)
    requires 0 < w && k <= m && 0 < m == |remote| && IsMatrix(remote, m, |remote[0]|) && q * w + count * w <= |remote[0]|
    requires StripBuffers(stale, m, count, w) && i < k && count > 0
    requires DecoderFits(d, m)
    ensures 0 < count * w && i * w < k * w
    ensures ReadResult(k, m, w, remote, fetched, d, q, count, stale)[0][i * w] ==
              RecoveredShard(Filled(remote, fetched, stale, q * w, count * w), d, count * w, i)[0]
  {
    hide RecoveredShard, Join;
    ProductMonotone(0, count, w);
    ProductMonotone(i, k, w);
    var full := Recovered(Filled(remote, fetched, stale, q * w, count * w), d, count * w);
    JoinByte(full, k, w, count, i, 0, 0);
  }

  /** A byte that differs from b. */
  function Other(b: bv8): bv8 { Xor(b, 1) }

  lemma OtherDiffers(b: bv8)
    ensures Other(b) != b
  {}

  /** A data shard that is neither fetched nor recovered comes back as the leftovers of its buffer. */
  lemma StaleShard(k: nat, m: nat, w: nat, remote: Matrix, fetched: seq<nat>, d: Decoder, pages: Matrix, q: nat, count: nat,
                   i: nat) returns (stale: Matrix)
    requires 0 < w && k <= m && 0 < m == |remote| && IsMatrix(remote, m, |remote[0]|) && q * w + count * w <= |remote[0]|
    requires i < k && 0 < count && q + count <= |pages| && IsMatrix(pages, |pages|, k * w)
    requires DecoderFits(d, m)
    requires i !in fetched && (d.nsrcerrs == 0 || i !in d.errList)
    ensures StripBuffers(stale, m, count, w)
    ensures ReadResult(k, m, w, remote, fetched, d, q, count, stale)[0] != pages[q]
  {
    hide Xor, Join, Other, Recovered, EncodeRow;
    ProductMonotone(i, k, w);
    ProductMonotone(0, count, w);
    var byte := pages[q][i * w];
    stale := seq(m, _ => seq(count * w, _ => Other(byte)));
    OtherDiffers(byte);
    FirstByte(k, m, w, remote, fetched, d, q, count, stale, i);
  }

  /** The first bytes of the sources, and of the same sources with one buffer changed. */
  lemma ChangedSource(k: nat, m: nat, remote: Matrix, fetched: seq<nat>, stale: Matrix, stale': Matrix, rows: seq<nat>,
                      at: nat, len: nat, idx: nat)
    requires |remote| == m && IsMatrix(stale, m, len) && IsMatrix(stale', m, len) && len > 0
    requires forall r | 0 <= r < m :: at + len <= |remote[r]|
    requires |rows| == k && Distinct(rows) && (forall r | 0 <= r < k :: rows[r] < m) && idx < k && rows[idx] !in fetched
    requires forall r | 0 <= r < m && r != rows[idx] :: stale'[r] == stale[r]
    requires stale'[rows[idx]][0] == Xor(stale[rows[idx]][0], 1)
    ensures var x := Column(Shards(Filled(remote, fetched, stale, at, len), rows), 0);
            Column(Shards(Filled(remote, fetched, stale', at, len), rows), 0) == x[idx := Xor(x[idx], 1)]
  {
    hide Xor;
    var x := Column(Shards(Filled(remote, fetched, stale, at, len), rows), 0);
    var y := Column(Shards(Filled(remote, fetched, stale', at, len), rows), 0);
    forall i | 0 <= i < k ensures y[i] == x[idx := Xor(x[idx], 1)][i] {}
  }

  /** Two buffers that differ in a source that matters cannot both give the right page. */
  lemma StaleSource(k: nat, m: nat, w: nat, remote: Matrix, fetched: seq<nat>, d: Decoder, pages: Matrix, q: nat, count: nat,
                    idx: nat) returns (stale: Matrix)
    requires 0 < w && 1 <= k <= m == |remote| && IsMatrix(remote, m, |remote[0]|) && q * w + count * w <= |remote[0]|
    requires 0 < count && q + count <= |pages| && IsMatrix(pages, |pages|, k * w)
    requires DecoderReady(k, m, d) && d.nsrcerrs > 0
    requires |d.decodeIndex| == k && forall i | 0 <= i < k :: d.decodeIndex[i] < m
    requires idx < k && d.decodeIndex[idx] >= k && d.decodeIndex[idx] !in fetched
    ensures StripBuffers(stale, m, count, w)
    ensures ReadResult(k, m, w, remote, fetched, d, q, count, stale)[0] != pages[q]
  {
    hide Xor, Mul, Dot, Join, Recovered, RecoveredShard, HoldsTables, Survivors, ErrorLists, Recovers, IsInverse, ReadResult;
    ErrorFacts(d.inErr, d.errList, d.nsrcerrs, k, m);
    var p := SourceMatters(k, m, d, idx);
    FirstSurvivors(d.inErr, k, m);
    var s0, s1 := FlippedBuffers(m, count, w, d.decodeIndex[idx]);
    FlippedSource(k, m, w, remote, fetched, d, q, count, idx, p, s0, s1);
    var r0 := ReadResult(k, m, w, remote, fetched, d, q, count, s0);
    var r1 := ReadResult(k, m, w, remote, fetched, d, q, count, s1);
    stale := if r0[0] == pages[q] then s1 else s0;
  }

  /** Two sets of buffers that differ in the first byte of buffer r. */
  ghost predicate Flipped(s0: Matrix, s1: Matrix, m: nat, r: nat) {
    && |s0| == |s1| == m && r < m && |s0[r]| > 0 && |s1[r]| > 0 && s1[r][0] == Xor(s0[r][0], 1)
    && forall i | 0 <= i < m && i != r :: s1[i] == s0[i]
  }

  lemma FlippedBuffers(m: nat, count: nat, w: nat, r: nat) returns (s0: Matrix, s1: Matrix)
    requires r < m && count > 0 && w > 0
    ensures StripBuffers(s0, m, count, w) && StripBuffers(s1, m, count, w) && Flipped(s0, s1, m, r)
  {
    hide Xor;
    NotNegative(count, w);
    ProductMonotone(0, count, w);
    s0 := seq(m, _ => seq(count * w, _ => 0));
    s1 := s0[r := s0[r][0 := Xor(0, 1)]];
  }

  /** If buffer r is a source that matters to shard errList[p], the two reads differ in that shard. */
  lemma FlippedSource(k: nat, m: nat, w: nat, remote: Matrix, fetched: seq<nat>, d: Decoder, q: nat, count: nat, idx: nat,
                      p: nat, s0: Matrix, s1: Matrix)
    requires 0 < w && k <= m && 0 < m == |remote| && IsMatrix(remote, m, |remote[0]|) && q * w + count * w <= |remote[0]|
    requires 0 < count && DecoderFits(d, m) && d.nsrcerrs > 0 && |d.decodeIndex| == k && Distinct(d.decodeIndex)
    requires Distinct(d.errList) && p < |d.errList| && d.errList[p] < k
    requires idx < k && d.decodeIndex[idx] !in fetched && d.decode[p][idx] != 0
    requires StripBuffers(s0, m, count, w) && StripBuffers(s1, m, count, w) && Flipped(s0, s1, m, d.decodeIndex[idx])
    ensures ReadResult(k, m, w, remote, fetched, d, q, count, s0)[0] != ReadResult(k, m, w, remote, fetched, d, q, count, s1)[0]
  {
    hide Xor, Mul, Dot, Join, Recovered, RecoveredShard, ReadResult;
    NotNegative(count, w);
    NotNegative(q, w);
    var at, len := q * w, count * w;
    FirstByte(k, m, w, remote, fetched, d, q, count, s0, d.errList[p]);
    FirstByte(k, m, w, remote, fetched, d, q, count, s1, d.errList[p]);
    var f0, f1 := Filled(remote, fetched, s0, at, len), Filled(remote, fetched, s1, at, len);
    LostFirstByte(k, m, d, p, f0, len);
    LostFirstByte(k, m, d, p, f1, len);
    ChangedSource(k, m, remote, fetched, s0, s1, d.decodeIndex, at, len, idx);
    ChangedDot(d.decode[p], Column(Shards(f0, d.decodeIndex), 0), idx, k);
  }

  /** The first byte of a recovered shard. */
  lemma LostFirstByte(k: nat, m: nat, d: Decoder, p: nat, shards: Matrix, len: nat)
    requires IsMatrix(shards, m, len) && len > 0 && DecoderFits(d, m) && d.nsrcerrs > 0 && |d.decodeIndex| == k
    requires Distinct(d.errList) && p < |d.errList| && d.errList[p] < m
    ensures RecoveredShard(shards, d, len, d.errList[p])[0] == Dot(d.decode[p], Column(Shards(shards, d.decodeIndex), 0), k)
  {
    hide Xor, Mul, Dot;
    PositionOf(d.errList, p);
  }

  /** A change where the coefficient is not zero changes a dot product. */
  lemma ChangedDot(row: Vector, x: Vector, idx: nat, k: nat)
    requires |row| == |x| == k && idx < k && row[idx] != 0
    ensures Dot(row, x[idx := Xor(x[idx], 1)], k) != Dot(row, x, k)
  {
    hide Xor, Mul, Dot;
    DotUpdate(row, x, idx, 1, k);
    MulByOne(row[idx]);
    XorCancels(Dot(row, x, k), row[idx]);
  }

  lemma MulByOne(a: bv8)
    ensures Mul(a, 1) == a
  {
    hide Mul;
    MulOne(a);
    MulComm(a, 1);
  }

  lemma XorCancels(a: bv8, b: bv8)
    requires b != 0
    ensures Xor(a, b) != a
  {}

  /** The condition is exact: where it fails there are leftovers with which the first page of the read comes back wrong,
      whatever was to be read. */
  lemma ReadIsWrong(k: nat, m: nat, w: nat, cbIndex: seq<int>, remote: Matrix, d: Decoder, pages: Matrix, q: nat, count: nat)
    returns (stale: Matrix)
    requires 0 < w && 1 <= k <= m == |remote| == |cbIndex| && IsMatrix(remote, m, |remote[0]|)
    requires q * w + count * w <= |remote[0]| && 0 < count && q + count <= |pages| && IsMatrix(pages, |pages|, k * w)
    requires k <= |Survivors(Unmapped(cbIndex), m)|
    requires DecoderReady(k, m, d)
    requires forall i | 0 <= i < |d.decodeIndex| :: d.decodeIndex[i] < m
    requires !ReadsRight(k, Unmapped(cbIndex), d)
    ensures StripBuffers(stale, m, count, w)
    ensures ReadResult(k, m, w, remote, Survivors(Unmapped(cbIndex), m)[..k], d, q, count, stale)[0] != pages[q]
  {
    hide Survivors, ErrorLists, RowChoice, Recovers, IsInverse, HoldsTables, ReadResult;
    var lost := Unmapped(cbIndex);
    var fetched := Survivors(lost, m)[..k];
    FirstSurvivors(lost, k, m);
    ErrorFacts(d.inErr, d.errList, d.nsrcerrs, k, m);
    if d.nsrcerrs == 0 {
      var i :| 0 <= i < k && lost[i];
      stale := StaleShard(k, m, w, remote, fetched, d, pages, q, count, i);
    } else {
      ChoiceShape(d.decodeIndex, m, k);
      FirstSurvivors(d.inErr, k, m);
      var idx :| 0 <= idx < k && lost[d.decodeIndex[idx]];
      if d.decodeIndex[idx] < k {
        stale := StaleShard(k, m, w, remote, fetched, d, pages, q, count, d.decodeIndex[idx]);
      } else {
        stale := StaleSource(k, m, w, remote, fetched, d, pages, q, count, idx);
      }
    }
  }
}
