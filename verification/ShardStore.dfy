/** The slabs of a coding group, as their servers hold them, and what they must hold. */
module ShardStore {
  import opened Matrices
  import opened Decode
  import opened Striping
  import opened SlabMap
  import opened Pages

  /** The bytes of every slab: one row of slots for each server. */
  type Memory = seq<seq<Vector>>

  ghost predicate IsMemory(memory: Memory, servers: nat, size: nat) {
    && |memory| == servers
    && forall c | 0 <= c < servers :: IsMatrix(memory[c], MAX_MR_SIZE_GB, size)
  }

  /** Every mapped chunk has an address: the server in cb_index_map and the slot in chunk_map_cb_chunk. */
  ghost predicate Addressed(cbIndex: seq<int>, slots: seq<int>, servers: nat) {
    && |slots| == |cbIndex|
    && forall s | 0 <= s < |cbIndex| && cbIndex[s] != NO_CB_MAPPED ::
         0 <= cbIndex[s] < servers && 0 <= slots[s] < MAX_MR_SIZE_GB
  }

  /** No two mapped chunks have the same address. */
  ghost predicate Apart(cbIndex: seq<int>, slots: seq<int>)
    requires |slots| == |cbIndex|
  {
    forall r, s | 0 <= r < s < |cbIndex| && cbIndex[r] != NO_CB_MAPPED :: cbIndex[r] != cbIndex[s] || slots[r] != slots[s]
  }

  /** That is what the mapping tables guarantee at every moment. */
  lemma PublishedApart(v: View)
    requires Published(v)
    ensures Addressed(v.cbIndexMap, v.chunkMapCbChunk, |v.chunkMap|) && Apart(v.cbIndexMap, v.chunkMapCbChunk)
  {}

  /** The shards of the group; an unmapped one has no bytes of its own. */
  function Group(memory: Memory, cbIndex: seq<int>, slots: seq<int>, size: nat): (remote: Matrix)
    requires Addressed(cbIndex, slots, |memory|) && IsMemory(memory, |memory|, size)
    ensures IsMatrix(remote, |cbIndex|, size)
  {
    seq(|cbIndex|, s requires 0 <= s < |cbIndex| =>
        if cbIndex[s] == NO_CB_MAPPED then seq(size, _ => 0) else memory[cbIndex[s]][slots[s]])
  }

  /** Every mapped shard holds the right bytes of every page written so far. */
  ghost predicate Stored(k: nat, m: nat, w: nat, cbIndex: seq<int>, remote: Matrix, pages: Matrix, written: set<nat>)
    requires IsMatrix(pages, |pages|, k * w)
  {
    && |cbIndex| == m && IsMatrix(remote, m, |pages| * w)
    && forall i, t, j | 0 <= i < m && cbIndex[i] != NO_CB_MAPPED && t in written && 0 <= t < |pages| && 0 <= j < w ::
         ShardHolds(remote[i], pages, k, w, i, t, j)
  }

  ghost predicate ShardHolds(shard: Vector, pages: Matrix, k: nat, w: nat, i: nat, t: nat, j: nat)
    requires IsMatrix(pages, |pages|, k * w) && t < |pages| && j < w
  {
    0 <= t * w + j < |shard| && shard[t * w + j] == ShardByte(pages[t], k, w, i, j)
  }

  // ---------- Writing ----------

  /** One slab with some of its bytes replaced. */
  function Put(memory: Memory, c: nat, i: nat, at: nat, bytes: Vector): (memory': Memory)
    requires c < |memory| && i < |memory[c]| && at + |bytes| <= |memory[c][i]|
  {
    memory[c := memory[c][i := memory[c][i][..at] + bytes + memory[c][i][at + |bytes|..]]]
  }

  /** The memory after the strips of the shards below n have been written to their addresses. */
  ghost predicate Posted(memory: Memory, memory': Memory, cbIndex: seq<int>, slots: seq<int>, word: Matrix, n: nat,
                         at: nat, len: nat, size: nat)
    requires Addressed(cbIndex, slots, |memory|) && IsMemory(memory, |memory|, size)
    requires IsMatrix(word, |cbIndex|, len) && at + len <= size
  {
    && IsMemory(memory', |memory|, size)
    && (forall s | 0 <= s < |cbIndex| && cbIndex[s] != NO_CB_MAPPED ::
          memory'[cbIndex[s]][slots[s]] ==
            (var old' := memory[cbIndex[s]][slots[s]]; if s < n then old'[..at] + word[s] + old'[at + len..] else old'))
    && forall c, i | 0 <= c < |memory| && 0 <= i < MAX_MR_SIZE_GB ::
         memory'[c][i] == memory[c][i] || exists s :: 0 <= s < n && s < |cbIndex| && cbIndex[s] == c && slots[s] == i
  }

  lemma PostStep(memory: Memory, memory': Memory, cbIndex: seq<int>, slots: seq<int>, word: Matrix, n: nat,
                 at: nat, len: nat, size: nat)
    requires Addressed(cbIndex, slots, |memory|) && IsMemory(memory, |memory|, size) && Apart(cbIndex, slots)
    requires IsMatrix(word, |cbIndex|, len) && at + len <= size && n < |cbIndex|
    requires Posted(memory, memory', cbIndex, slots, word, n, at, len, size)
    ensures cbIndex[n] == NO_CB_MAPPED ==> Posted(memory, memory', cbIndex, slots, word, n + 1, at, len, size)
    ensures cbIndex[n] != NO_CB_MAPPED ==>
              0 <= cbIndex[n] < |memory'| && 0 <= slots[n] < |memory'[cbIndex[n]]|
              && |memory'[cbIndex[n]][slots[n]]| == size && |word[n]| == len
              && Posted(memory, Put(memory', cbIndex[n], slots[n], at, word[n]), cbIndex, slots, word, n + 1, at, len, size)
  {
    if cbIndex[n] != NO_CB_MAPPED {
      var after := Put(memory', cbIndex[n], slots[n], at, word[n]);
      assert IsMemory(after, |memory|, size);
      forall c, i | 0 <= c < |memory| && 0 <= i < MAX_MR_SIZE_GB
        ensures after[c][i] == memory[c][i] || exists s :: 0 <= s < n + 1 && s < |cbIndex| && cbIndex[s] == c && slots[s] == i
      {
        if c == cbIndex[n] && i == slots[n] {
          assert 0 <= n < n + 1;
        } else {
          assert after[c][i] == memory'[c][i];
        }
      }
    }
  }

  /** One of the two posting loops of IS_rdma_write: mapped shards get their strips, the others are skipped. */
  method PostRange(memory: Memory, before: Memory, cbIndex: seq<int>, slots: seq<int>, word: Matrix, from: nat, to: nat,
                   at: nat, len: nat, size: nat) returns (memory': Memory)
    requires Addressed(cbIndex, slots, |before|) && IsMemory(before, |before|, size) && Apart(cbIndex, slots)
    requires IsMatrix(word, |cbIndex|, len) && at + len <= size && from <= to <= |cbIndex|
    requires Posted(before, memory, cbIndex, slots, word, from, at, len, size)
    ensures Posted(before, memory', cbIndex, slots, word, to, at, len, size)
  {
    hide Posted, Put, IsMemory, Apart;
    memory' := memory;
    for i := from to to
      invariant Posted(before, memory', cbIndex, slots, word, i, at, len, size)
    {
      PostStep(before, memory', cbIndex, slots, word, i, at, len, size);
      if cbIndex[i] == NO_CB_MAPPED {
        continue;
      }
      memory' := Put(memory', cbIndex[i], slots[i], at, word[i]);
    }
  }

  /** Both posting loops: data shards first, then parities. */
  method PostWrites(memory: Memory, cbIndex: seq<int>, slots: seq<int>, word: Matrix, k: nat, at: nat, len: nat, size: nat)
    returns (memory': Memory)
    requires Addressed(cbIndex, slots, |memory|) && IsMemory(memory, |memory|, size) && Apart(cbIndex, slots)
    requires IsMatrix(word, |cbIndex|, len) && at + len <= size && k <= |cbIndex|
    ensures Posted(memory, memory', cbIndex, slots, word, |cbIndex|, at, len, size)
  {
    NothingPosted(memory, cbIndex, slots, word, at, len, size);
    hide Posted, IsMemory, Apart;
    memory' := PostRange(memory, memory, cbIndex, slots, word, 0, k, at, len, size);
    memory' := PostRange(memory', memory, cbIndex, slots, word, k, |cbIndex|, at, len, size);
  }

  lemma NothingPosted(memory: Memory, cbIndex: seq<int>, slots: seq<int>, word: Matrix, at: nat, len: nat, size: nat)
    requires Addressed(cbIndex, slots, |memory|) && IsMemory(memory, |memory|, size)
    requires IsMatrix(word, |cbIndex|, len) && at + len <= size
    ensures Posted(memory, memory, cbIndex, slots, word, 0, at, len, size)
  {}

  /** Seen by shards, a write puts each strip into its own shard. */
  lemma PostedGroup(memory: Memory, memory': Memory, cbIndex: seq<int>, slots: seq<int>, word: Matrix,
                    at: nat, len: nat, size: nat)
    requires Addressed(cbIndex, slots, |memory|) && IsMemory(memory, |memory|, size)
    requires IsMatrix(word, |cbIndex|, len) && at + len <= size
    requires Posted(memory, memory', cbIndex, slots, word, |cbIndex|, at, len, size)
    ensures |memory'| == |memory| && IsMemory(memory', |memory'|, size)
    ensures forall s | 0 <= s < |cbIndex| && cbIndex[s] != NO_CB_MAPPED ::
              Group(memory', cbIndex, slots, size)[s] ==
                (var old' := Group(memory, cbIndex, slots, size)[s]; old'[..at] + word[s] + old'[at + len..])
  {}

  /** A byte of a strip of page t, in a shard into which the strips of a run of pages have been written. */
  lemma WrittenByte(shard: Vector, shard': Vector, m: nat, k: nat, w: nat, pages: Matrix, data: Matrix, q: nat,
                    i: nat, t: nat, j: nat)
    requires k <= m && w > 0 && i < m && j < w && t < |pages| && q + |data| <= |pages|
    requires IsMatrix(pages, |pages|, k * w) && IsMatrix(data, |data|, k * w) && |shard| == |pages| * w
    requires q * w + |data| * w <= |shard|
    requires shard' == shard[..q * w] + Codeword(m, k, Split(data, k, w), |data| * w)[i] + shard[q * w + |data| * w..]
    requires q <= t < q + |data| || ShardHolds(shard, pages, k, w, i, t, j)
    ensures IsMatrix(Spliced(pages, data, q), |pages|, k * w)
    ensures ShardHolds(shard', Spliced(pages, data, q), k, w, i, t, j)
  {
    hide Codeword, Split, ShardByte;
    ProductMonotone(t, |pages|, w);
    assert (q + |data|) * w == q * w + |data| * w;
    if t < q {
      ProductMonotone(t, q, w);
    } else if t < q + |data| {
      ProductMonotone(q, t, w);
      ProductMonotone(t, q + |data|, w);
      assert (t - q) * w == t * w - q * w;
      CodewordByte(m, k, w, data, i, t - q, j);
    } else {
      ProductMonotone(q + |data|, t, w);
    }
  }

  /** Writing a run of pages keeps every mapped shard right. */
  lemma WriteKeepsStored(k: nat, m: nat, w: nat, cbIndex: seq<int>, remote: Matrix, remote': Matrix, pages: Matrix,
                         data: Matrix, q: nat, written: set<nat>, written': set<nat>)
    requires k <= m && w > 0 && IsMatrix(pages, |pages|, k * w) && IsMatrix(data, |data|, k * w) && q + |data| <= |pages|
    requires Stored(k, m, w, cbIndex, remote, pages, written) && IsMatrix(remote', m, |pages| * w)
    requires q * w + |data| * w <= |pages| * w
    requires var word := Codeword(m, k, Split(data, k, w), |data| * w); forall i | 0 <= i < m && cbIndex[i] != NO_CB_MAPPED ::
      remote'[i] == remote[i][..q * w] + word[i] + remote[i][q * w + |data| * w..]
    requires forall t | t in written' :: t in written || q <= t < q + |data|
    ensures IsMatrix(Spliced(pages, data, q), |pages|, k * w)
    ensures Stored(k, m, w, cbIndex, remote', Spliced(pages, data, q), written')
  {
    hide Codeword, Split, ShardHolds;
    var pages' := Spliced(pages, data, q);
    forall i, t, j | 0 <= i < m && cbIndex[i] != NO_CB_MAPPED && t in written' && 0 <= t < |pages| && 0 <= j < w
      ensures ShardHolds(remote'[i], pages', k, w, i, t, j)
    {
      WrittenByte(remote[i], remote'[i], m, k, w, pages, data, q, i, t, j);
    }
  }

  // ---------- Reading ----------

  /** What the posted reads bring in: the visited shards' strips, each from its address; other buffers keep what they
      held before. */
  method Receive(memory: Memory, cbIndex: seq<int>, slots: seq<int>, visited: seq<nat>, stale: Matrix,
                 at: nat, len: nat, size: nat) returns (shards: Matrix)
    requires Addressed(cbIndex, slots, |memory|) && IsMemory(memory, |memory|, size)
    requires IsMatrix(stale, |cbIndex|, len) && at + len <= size && Distinct(visited)
    requires forall i | 0 <= i < |visited| :: visited[i] < |cbIndex| && cbIndex[visited[i]] != NO_CB_MAPPED
    ensures shards == Filled(Group(memory, cbIndex, slots, size), visited, stale, at, len)
  {
    shards := stale;
    for i := 0 to |visited|
      invariant IsMatrix(shards, |cbIndex|, len)
      invariant forall r | 0 <= r < |cbIndex| ::
        shards[r] == if r in visited[..i] then Group(memory, cbIndex, slots, size)[r][at..at + len] else stale[r]
    {
      var r := visited[i];
      shards := shards[r := memory[cbIndex[r]][slots[r]][at..at + len]];
      assert visited[..i + 1] == visited[..i] + [r];
    }
    assert visited[..|visited|] == visited;
  }

  /** The buffers of a read: fetched shards, and leftovers. */
  function Filled(remote: Matrix, fetched: seq<nat>, stale: Matrix, at: nat, len: nat): (shards: Matrix)
    requires |stale| == |remote| && IsMatrix(stale, |stale|, len) && forall r | 0 <= r < |remote| :: at + len <= |remote[r]|
    ensures IsMatrix(shards, |remote|, len)
    ensures forall r | 0 <= r < |remote| :: shards[r] == if r in fetched then remote[r][at..at + len] else stale[r]
  {
    seq(|remote|, r requires 0 <= r < |remote| => if r in fetched then remote[r][at..at + len] else stale[r])
  }

  // ---------- Losing chunks ----------

  /** Chunks that stay mapped keep their bytes. */
  lemma RemappedStored(k: nat, m: nat, w: nat, memory: Memory, cbIndex: seq<int>, slots: seq<int>, cbIndex': seq<int>,
                       slots': seq<int>, pages: Matrix, written: set<nat>)
    requires IsMatrix(pages, |pages|, k * w) && IsMemory(memory, |memory|, |pages| * w)
    requires Addressed(cbIndex, slots, |memory|) && Addressed(cbIndex', slots', |memory|) && |cbIndex'| == |cbIndex|
    requires Stored(k, m, w, cbIndex, Group(memory, cbIndex, slots, |pages| * w), pages, written)
    requires forall s | 0 <= s < |cbIndex| && cbIndex'[s] != NO_CB_MAPPED :: cbIndex'[s] == cbIndex[s] && slots'[s] == slots[s]
    ensures Stored(k, m, w, cbIndex', Group(memory, cbIndex', slots', |pages| * w), pages, written)
  {
    hide ShardHolds;
    var before, after := Group(memory, cbIndex, slots, |pages| * w), Group(memory, cbIndex', slots', |pages| * w);
    forall i, t, j | 0 <= i < m && cbIndex'[i] != NO_CB_MAPPED && t in written && 0 <= t < |pages| && 0 <= j < w
      ensures ShardHolds(after[i], pages, k, w, i, t, j)
    {
      assert ShardHolds(before[i], pages, k, w, i, t, j);
    }
  }

  lemma StoredShape(k: nat, m: nat, w: nat, cbIndex: seq<int>, remote: Matrix, pages: Matrix, written: set<nat>)
    requires IsMatrix(pages, |pages|, k * w) && Stored(k, m, w, cbIndex, remote, pages, written)
    ensures |cbIndex| == m && IsMatrix(remote, m, |pages| * w)
  {}
}
