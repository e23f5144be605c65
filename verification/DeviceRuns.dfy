/** Whole runs of a block device: requests by byte address, server disconnects and evictions. */
module DeviceRuns {
  import opened Matrices
  import opened GaussJordan
  import opened Cauchy
  import opened MulTables
  import opened Decode
  import opened Striping
  import opened SlabMap
  import opened ShardIo
  import opened ShardStore
  import opened ReadPath
  import opened BlockDevice

  /** What can happen to the device: a write of the bytes from `start` on; a read of pages from `start` on, into buffers
      that hold `stale`; a server's disconnect, with the word that precedes the list of states; and a server's STOP for
      its slabs of the given shards. */
  datatype Op =
    | WriteOp(start: nat, bytes: Vector)
    | ReadOp(start: nat, count: nat, stale: Matrix)
    | DisconnectOp(server: nat, below: CbState)
    | EvictOp(server: nat, shards: seq<bool>)

  /** What does not change over a run: k of m shards, w bytes of each for a page, and so many pages and servers. */
  datatype Layout = Layout(k: nat, m: nat, w: nat, pages: nat, servers: nat)

  /** Whole pages inside the device. */
  ghost predicate InDevice(start: nat, len: nat, l: Layout) {
    l.k * l.w > 0 && start % (l.k * l.w) == 0 && len % (l.k * l.w) == 0
    && start < l.pages * (l.k * l.w) && start + len <= l.pages * (l.k * l.w)
  }

  ghost predicate Fits(op: Op, l: Layout) {
    match op
    case WriteOp(start, bytes) => InDevice(start, |bytes|, l)
    case ReadOp(start, count, stale) => InDevice(start, count * (l.k * l.w), l) && IsMatrix(stale, l.m, count * l.w)
    case DisconnectOp(server, _) => server < l.servers
    case EvictOp(server, shards) => server < l.servers && |shards| == l.m
  }

  // ---------- What an op does to the tables ----------

  /** Every STOP for slabs that are in use is of this kind: the marks of the slabs that hold the given shards. */
  ghost function MarksOf(o: Outlook, c: nat, shards: seq<bool>): (marks: seq<bool>)
    requires |o.slots| == |o.cbIndex|
    ensures |marks| == MAX_MR_SIZE_GB
  {
    seq(MAX_MR_SIZE_GB, i requires 0 <= i => Marked(o, c, shards, i))
  }

  ghost predicate Marked(o: Outlook, c: nat, shards: seq<bool>, i: nat)
    requires |o.slots| == |o.cbIndex|
  {
    exists s :: 0 <= s < |o.cbIndex| && s < |shards| && shards[s] && o.cbIndex[s] == c && o.slots[s] == i
  }

  ghost function After(o: Outlook, op: Op, k: nat): (o': Outlook)
    requires |o.slots| == |o.cbIndex| == |o.inErr| && k <= |o.cbIndex|
    ensures |o'.slots| == |o'.cbIndex| == |o'.inErr| == |o.cbIndex| && |o'.states| == |o.states|
  {
    match op
    case DisconnectOp(server, _) => if server < |o.states| then AfterDisconnect(o, server, k) else o
    case EvictOp(server, shards) => AfterEvict(o, server, MarksOf(o, server, shards))
    case _ => o
  }

  ghost function AfterAll(o: Outlook, ops: seq<Op>, k: nat): (o': Outlook)
    requires |o.slots| == |o.cbIndex| == |o.inErr| && k <= |o.cbIndex|
    ensures |o'.slots| == |o'.cbIndex| == |o'.inErr| == |o.cbIndex| && |o'.states| == |o.states|
  {
    if ops == [] then o else After(AfterAll(o, ops[..|ops| - 1], k), ops[|ops| - 1], k)
  }

  // ---------- Last writes, byte by byte ----------

  datatype Option<T> = None | Some(value: T)

  /** The byte that was last written at address a. */
  function LastWrite(ops: seq<Op>, a: nat): (byte: Option<bv8>) {
    if ops == [] then None else
      var op := ops[|ops| - 1];
      if op.WriteOp? && op.start <= a < op.start + |op.bytes| then Some(op.bytes[a - op.start])
      else LastWrite(ops[..|ops| - 1], a)
  }

  /** It is the byte of a write to that address which no later write covers. */
  lemma {:induction false} LastWriteIs(ops: seq<Op>, a: nat, n: nat)
    requires n < |ops| && ops[n].WriteOp? && ops[n].start <= a < ops[n].start + |ops[n].bytes|
    requires forall h | n < h < |ops| :: !(ops[h].WriteOp? && ops[h].start <= a < ops[h].start + |ops[h].bytes|)
    ensures LastWrite(ops, a) == Some(ops[n].bytes[a - ops[n].start])
  {
    if n < |ops| - 1 {
      LastWriteIs(ops[..|ops| - 1], a, n);
    }
  }

  /** The read returns the last write at each of its addresses. */
  ghost predicate Answers(before: seq<Op>, read: Op, result: Vector, size: nat)
    requires read.ReadOp?
  {
    && |result| == read.count * size
    && forall a | read.start <= a < read.start + |result| && LastWrite(before, a).Some? ::
         result[a - read.start] == LastWrite(before, a).value
  }

  /** What a run knows about the pages. */
  ghost predicate Remembers(ops: seq<Op>, pages: Matrix, written: set<nat>, size: nat) {
    forall t: nat, y: nat | t < |pages| && y < size :: Known(LastWrite(ops, Address(t, y, size)), pages[t], y, t in written)
  }

  ghost predicate Known(last: Option<bv8>, page: Vector, y: nat, written: bool) {
    last.Some? ==> written && y < |page| && page[y] == last.value
  }

  /** Byte y of page t. */
  function Address(t: nat, y: nat, size: nat): nat {
    t * size + y
  }

  /** Bytes as pages. */
  function Paged(bytes: Vector, size: nat): (pages: Matrix)
    requires size > 0 && |bytes| % size == 0
    ensures IsMatrix(pages, |bytes| / size, size)
  {
    seq(|bytes| / size, t requires 0 <= t < |bytes| / size => PageAt(bytes, size, t))
  }

  function PageAt(bytes: Vector, size: nat, t: nat): (page: Vector)
    requires size > 0 && |bytes| % size == 0 && t < |bytes| / size
    ensures |page| == size
  {
    ProductMonotone(t, |bytes| / size, size);
    bytes[t * size..t * size + size]
  }

  /** Pages as bytes. */
  function Joined(pages: Matrix, size: nat): (bytes: Vector)
    requires size > 0 && IsMatrix(pages, |pages|, size)
    ensures |bytes| == |pages| * size
  {
    seq(|pages| * size, x requires 0 <= x < |pages| * size => (StripBounds(|pages|, 1, size, 0, x); pages[x / size][x % size]))
  }

  lemma JoinedByte(pages: Matrix, size: nat, t: nat, y: nat)
    requires size > 0 && IsMatrix(pages, |pages|, size) && t < |pages| && y < size
    ensures t * size + y < |pages| * size && Joined(pages, size)[t * size + y] == pages[t][y]
  {
    ProductMonotone(t, |pages|, size);
    DivUnique(t * size + y, size, t, y);
  }

  /** Address t * size + y lies in a run of pages exactly when page t does. */
  lemma InRun(q: nat, n: nat, size: nat, t: nat, y: nat)
    requires y < size
    ensures q * size <= t * size + y < q * size + n * size <==> q <= t < q + n
    ensures q <= t ==> t * size + y - q * size == (t - q) * size + y
  {
    assert (q + n) * size == q * size + n * size;
    if t < q {
      ProductMonotone(t, q, size);
    } else {
      ProductMonotone(q, t, size);
      assert (t - q) * size == t * size - q * size;
      if t < q + n {
        ProductMonotone(t, q + n, size);
      } else {
        ProductMonotone(q + n, t, size);
      }
    }
  }

  lemma LastWriteStep(ops: seq<Op>, op: Op, a: nat)
    ensures LastWrite(ops + [op], a) ==
              if op.WriteOp? && op.start <= a < op.start + |op.bytes| then Some(op.bytes[a - op.start]) else LastWrite(ops, a)
  {
    assert (ops + [op])[..|ops|] == ops;
  }

  lemma RememberWrite(ops: seq<Op>, op: Op, l: Layout, pages: Matrix, written: set<nat>)
    requires op.WriteOp? && Fits(op, l) && IsMatrix(pages, l.pages, l.k * l.w)
    requires Remembers(ops, pages, written, l.k * l.w)
    ensures var size := l.k * l.w; var q := op.start / size; var data := Paged(op.bytes, size);
            && q + |data| <= |pages|
            && Remembers(ops + [op], Spliced(pages, data, q), written + Run(q, |data|), size)
  {
    var size := l.k * l.w;
    var q, data := op.start / size, Paged(op.bytes, size);
    RequestPages(op.start, |op.bytes|, l);
    hide Address, Known, Spliced, Run, Paged, LastWrite;
    forall t: nat, y: nat | t < |pages| && y < size
      ensures |Spliced(pages, data, q)| == |pages|
      ensures Known(LastWrite(ops + [op], Address(t, y, size)), Spliced(pages, data, q)[t], y, t in written + Run(q, |data|))
    {
      assert Known(LastWrite(ops, Address(t, y, size)), pages[t], y, t in written);
      WrittenByte(ops, op, q, |data|, size, pages, written, t, y);
    }
  }

  lemma WrittenByte(ops: seq<Op>, op: Op, q: nat, n: nat, size: nat, pages: Matrix, written: set<nat>, t: nat, y: nat)
    requires op.WriteOp? && size > 0 && |op.bytes| % size == 0 && n == |op.bytes| / size
    requires op.start == q * size && |op.bytes| == n * size && q + n <= |pages| && t < |pages| && y < size
    requires Known(LastWrite(ops, Address(t, y, size)), pages[t], y, t in written)
    ensures Known(LastWrite(ops + [op], Address(t, y, size)), Spliced(pages, Paged(op.bytes, size), q)[t], y,
                  t in written + Run(q, n))
  {
    hide LastWrite;
    LastWriteStep(ops, op, Address(t, y, size));
    InRun(q, n, size, t, y);
    if q <= t < q + n {
      ProductMonotone(t - q, n, size);
      assert Spliced(pages, Paged(op.bytes, size), q)[t] == PageAt(op.bytes, size, t - q);
    } else {
      assert Spliced(pages, Paged(op.bytes, size), q)[t] == pages[t];
    }
  }

  lemma RememberOther(ops: seq<Op>, op: Op, pages: Matrix, written: set<nat>, size: nat)
    requires !op.WriteOp? && Remembers(ops, pages, written, size)
    ensures Remembers(ops + [op], pages, written, size)
  {
    hide Address, LastWrite;
    forall t: nat, y: nat | t < |pages| && y < size
      ensures LastWrite(ops + [op], Address(t, y, size)) == LastWrite(ops, Address(t, y, size))
    {
      LastWriteStep(ops, op, Address(t, y, size));
    }
  }

  /** The pages of a request. */
  lemma RequestPages(start: nat, len: nat, l: Layout)
    requires InDevice(start, len, l)
    ensures var size := l.k * l.w;
            && start == start / size * size && len == len / size * size && start / size + len / size <= l.pages
            && l.k > 0 && l.w > 0 && l.pages > 0
            && ShardStart(start, l.pages * size, l.k) == start / size * l.w
  {
    var size := l.k * l.w;
    Factors(l.k, l.w);
    Factors(l.pages, size);
    assert len == len / size * size + len % size && start == start / size * size + start % size;
    RequestRange(start, len / size, l.k, l.w, l.pages);
  }

  lemma Factors(a: nat, b: nat)
    requires a * b > 0
    ensures a > 0 && b > 0
  {}

  /** Right pages are right bytes. */
  lemma ReturnsAnswers(before: seq<Op>, read: Op, l: Layout, pages: Matrix, written: set<nat>, result: Matrix)
    requires read.ReadOp? && Fits(read, l) && IsMatrix(pages, l.pages, l.k * l.w) && IsMatrix(result, read.count, l.k * l.w)
    requires Remembers(before, pages, written, l.k * l.w)
    requires var q := read.start / (l.k * l.w);
             forall t: nat | q <= t < q + read.count && t < |pages| && t in written :: result[t - q] == pages[t]
    ensures Answers(before, read, Joined(result, l.k * l.w), l.k * l.w)
  {
    var size := l.k * l.w;
    var q := read.start / size;
    RequestPages(read.start, read.count * size, l);
    MultipleDivides(read.count, size);
    hide LastWrite, Joined, Address, Known;
    forall a | read.start <= a < read.start + read.count * size && LastWrite(before, a).Some?
      ensures Joined(result, size)[a - read.start] == LastWrite(before, a).value
    {
      var s, y := Locate(a - read.start, size, read.count);
      JoinedByte(result, size, s, y);
      assert Known(LastWrite(before, Address(q + s, y, size)), pages[q + s], y, q + s in written);
      ReadAddress(read.start, q, s, y, a, size, LastWrite(before, a), pages[q + s], q + s in written, before);
    }
  }

  lemma ReadAddress(start: nat, q: nat, s: nat, y: nat, a: nat, size: nat, last: Option<bv8>, page: Vector, written: bool,
                    before: seq<Op>)
    requires start == q * size && a - start == s * size + y && last == LastWrite(before, a) && last.Some?
    requires Known(LastWrite(before, Address(q + s, y, size)), page, y, written)
    ensures written && y < |page| && page[y] == last.value
  {
    assert (q + s) * size == q * size + s * size;
  }

  // ---------- The tables after a run ----------

  ghost predicate Disconnected(ops: seq<Op>, c: nat) {
    exists n :: 0 <= n < |ops| && ops[n].DisconnectOp? && ops[n].server == c
  }

  /** Some op takes shard s away from server c. */
  ghost predicate TakenAway(ops: seq<Op>, c: int, s: nat) {
    exists n :: 0 <= n < |ops| && Takes(ops[n], c, s)
  }

  ghost predicate Takes(op: Op, c: int, s: nat) {
    match op
    case DisconnectOp(server, _) => server == c
    case EvictOp(server, shards) => server == c && s < |shards| && shards[s]
    case _ => false
  }

  lemma TakenAwayStep(ops: seq<Op>, c: int, s: nat)
    requires ops != []
    ensures TakenAway(ops, c, s) <==> TakenAway(ops[..|ops| - 1], c, s) || Takes(ops[|ops| - 1], c, s)
  {
    hide Takes;
    var before := ops[..|ops| - 1];
    if TakenAway(before, c, s) {
      var n :| 0 <= n < |before| && Takes(before[n], c, s);
      assert Takes(ops[n], c, s);
    }
    if TakenAway(ops, c, s) && !Takes(ops[|ops| - 1], c, s) {
      var n :| 0 <= n < |ops| && Takes(ops[n], c, s);
      assert Takes(before[n], c, s);
    }
  }

  lemma DisconnectedStep(ops: seq<Op>, c: nat)
    requires ops != []
    ensures Disconnected(ops, c) <==>
            Disconnected(ops[..|ops| - 1], c) || (ops[|ops| - 1].DisconnectOp? && ops[|ops| - 1].server == c)
  {
    var before := ops[..|ops| - 1];
    if Disconnected(before, c) {
      var n :| 0 <= n < |before| && before[n].DisconnectOp? && before[n].server == c;
      assert ops[n] == before[n];
    }
  }

  /** Exactly the servers that have disconnected have failed; the other states are as they were. */
  lemma {:induction false} StatesAfterRun(o: Outlook, ops: seq<Op>, k: nat, c: nat)
    requires |o.slots| == |o.cbIndex| == |o.inErr| && k <= |o.cbIndex| && c < |o.states|
    ensures AfterAll(o, ops, k).states[c] == if Disconnected(ops, c) then Fail else o.states[c]
    decreases |ops|
  {
    if ops == [] {
    } else {
      StatesAfterRun(o, ops[..|ops| - 1], k, c);
      DisconnectedStep(ops, c);
    }
  }

  /** The group has shards on servers that are neither failed nor merely connected, each in a slot of its own. */
  ghost predicate Placed(o: Outlook) {
    && |o.slots| == |o.cbIndex| == |o.inErr| && LiveServers(o.cbIndex, o.states)
    && Addressed(o.cbIndex, o.slots, |o.states|) && Apart(o.cbIndex, o.slots)
  }

  /** Shard s is where it was at the start, unless it is no longer mapped. */
  ghost predicate Stays(o: Outlook, now: Outlook, s: nat) {
    && s < |o.cbIndex| == |now.cbIndex| == |o.slots| == |now.slots|
    && (now.cbIndex[s] != NO_CB_MAPPED ==> now.cbIndex[s] == o.cbIndex[s] && now.slots[s] == o.slots[s])
  }

  /** Exactly the shards that no disconnect and no eviction takes away stay mapped, and they stay where they were. */
  lemma {:induction false} ShardsAfterRun(o: Outlook, ops: seq<Op>, k: nat, s: nat)
    requires Placed(o) && k <= |o.cbIndex| && s < |o.cbIndex|
    ensures AfterAll(o, ops, k).cbIndex[s] == if TakenAway(ops, o.cbIndex[s], s) then NO_CB_MAPPED else o.cbIndex[s]
    ensures Stays(o, AfterAll(o, ops, k), s)
    decreases |ops|
  {
    hide TakenAway, Takes, After;
    if ops == [] {
      NothingTaken(o.cbIndex[s], s);
    } else {
      var before, op := ops[..|ops| - 1], ops[|ops| - 1];
      var now := AfterAll(o, before, k);
      forall r | 0 <= r < |o.cbIndex| ensures Stays(o, now, r) {
        ShardsAfterRun(o, before, k, r);
      }
      ShardsAfterRun(o, before, k, s);
      TakenAwayStep(ops, o.cbIndex[s], s);
      if o.cbIndex[s] != NO_CB_MAPPED {
        StatesAfterRun(o, before, k, o.cbIndex[s]);
      }
      OneOpOnShard(o, now, op, k, s);
    }
  }

  lemma NothingTaken(c: int, s: nat)
    ensures !TakenAway([], c, s)
  {}

  lemma OneOpOnShard(o: Outlook, now: Outlook, op: Op, k: nat, s: nat)
    requires Placed(o) && |now.slots| == |now.cbIndex| == |now.inErr| == |o.cbIndex| && k <= |o.cbIndex| && s < |o.cbIndex|
    requires |now.states| == |o.states| && forall r | 0 <= r < |o.cbIndex| :: Stays(o, now, r)
    requires now.cbIndex[s] != NO_CB_MAPPED ==> 0 <= now.cbIndex[s] < |now.states| && now.states[now.cbIndex[s]] != Connected
    ensures Stays(o, After(now, op, k), s)
    ensures After(now, op, k).cbIndex[s] ==
              if now.cbIndex[s] != NO_CB_MAPPED && Takes(op, now.cbIndex[s], s) then NO_CB_MAPPED else now.cbIndex[s]
  {
    hide Scanned, LiveServers;
    assert Stays(o, now, s);
    match op
    case DisconnectOp(server, _) =>
    case EvictOp(server, shards) =>
      if now.cbIndex[s] == server {
        forall r | 0 <= r < |now.cbIndex| && r != s && now.cbIndex[r] == server ensures now.slots[r] != now.slots[s] {
          assert Stays(o, now, r);
        }
        MarkedIs(now, server, shards, s);
      }
    case _ =>
  }

  /** Where no two shards share a slot, the slot of a shard is marked exactly for its own sake. */
  lemma MarkedIs(now: Outlook, c: nat, shards: seq<bool>, s: nat)
    requires |now.slots| == |now.cbIndex| && s < |now.cbIndex| && now.cbIndex[s] == c && 0 <= now.slots[s] < MAX_MR_SIZE_GB
    requires forall r | 0 <= r < |now.cbIndex| && r != s && now.cbIndex[r] == c :: now.slots[r] != now.slots[s]
    ensures MarksOf(now, c, shards)[now.slots[s]] <==> s < |shards| && shards[s]
  {
    if s < |shards| && shards[s] {
      assert Marked(now, c, shards, now.slots[s]);
    }
  }

  // ---------- Runs ----------

  ghost predicate HasLayout(dev: Device, l: Layout)
    reads dev
  {
    l == Layout(dev.k, dev.m, dev.w, |dev.pages|, |dev.cbStateList|)
  }

  /** The marks of a STOP for the slabs that hold the given shards. */
  method MarkSlabs(cbIndex: seq<int>, slots: seq<int>, c: nat, shards: seq<bool>, ghost o: Outlook) returns (marks: seq<bool>)
    requires |cbIndex| == |slots| == |shards| && o.cbIndex == cbIndex && o.slots == slots
    requires forall s | 0 <= s < |cbIndex| && cbIndex[s] == c :: 0 <= slots[s] < MAX_MR_SIZE_GB
    ensures marks == MarksOf(o, c, shards)
  {
    marks := seq(MAX_MR_SIZE_GB, _ => false);
    for s := 0 to |cbIndex|
      invariant |marks| == MAX_MR_SIZE_GB
      invariant forall i | 0 <= i < MAX_MR_SIZE_GB ::
        marks[i] <==> exists r :: 0 <= r < s && shards[r] && cbIndex[r] == c && slots[r] == i
    {
      if shards[s] && cbIndex[s] == c {
        marks := marks[slots[s] := true];
      }
    }
    assert marks == MarksOf(o, c, shards);
  }

  lemma MarksNamed(v: View, o: Outlook, c: nat, shards: seq<bool>)
    requires Settled(v) && o.cbIndex == v.cbIndexMap && o.slots == v.chunkMapCbChunk && c < |v.chunkMap|
    ensures |o.slots| == |o.cbIndex| && Named(v.chunkMap, c, MarksOf(o, c, shards))
    ensures forall s | 0 <= s < |o.cbIndex| && o.cbIndex[s] == c :: 0 <= o.slots[s] < MAX_MR_SIZE_GB
  {}

  lemma DevicePlaced(dev: Device)
    requires dev.Coherent()
    ensures Placed(dev.Now()) && |dev.cbStateList| == |dev.Now().states|
    ensures forall s | 0 <= s < |dev.Now().cbIndex| && dev.Now().cbIndex[s] != NO_CB_MAPPED ::
              0 <= dev.Now().cbIndex[s] < |dev.Now().states| && dev.Now().states[dev.Now().cbIndex[s]] != Connected
  {
    hide Stored, DecoderReady, HoldsTables, Settled, History, CauchyMatrix, Rows, IsMemory, Group, Published, Apart;
    TablesMatch(dev.session.Now());
    SettledPublished(dev.session.Now());
    PublishedApart(dev.session.Now());
  }

  /** IS_request for a write: the offset inside every chunk is a k-th of the offset in the slab. */
  method DoWrite(dev: Device, op: Op, l: Layout, ghost before: seq<Op>)
    requires op.WriteOp? && HasLayout(dev, l) && Fits(op, l) && dev.Coherent()
    requires Remembers(before, dev.pages, dev.written, l.k * l.w)
    modifies dev`memory, dev`pages, dev`written
    ensures HasLayout(dev, l) && dev.Coherent() && dev.Now() == old(dev.Now())
    ensures Remembers(before + [op], dev.pages, dev.written, l.k * l.w)
  {
    hide Remembers, Paged, ShardStart, Stored, DecoderReady, HoldsTables, LiveServers, Settled, History, CauchyMatrix, Rows;
    hide IsMemory, Addressed, Group, Spliced, Run;
    RequestPages(op.start, |op.bytes|, l);
    RememberWrite(before, op, l, dev.pages, dev.written);
    dev.Write(ShardStart(op.start, dev.slabBytes, dev.k), Paged(op.bytes, dev.pageSize), op.start / (l.k * l.w));
  }

  /** IS_request for a read. */
  method DoRead(dev: Device, op: Op, l: Layout, ghost before: seq<Op>) returns (result: Vector)
    requires op.ReadOp? && HasLayout(dev, l) && Fits(op, l) && dev.Coherent()
    requires Remembers(before, dev.pages, dev.written, l.k * l.w)
    ensures Readable(dev.Now(), l.k) ==> Answers(before, op, result, l.k * l.w)
  {
    hide Remembers, Answers, ShardStart, Stored, DecoderReady, HoldsTables, LiveServers, Settled, History, CauchyMatrix, Rows;
    hide IsMemory, Addressed, Group, Readable, Joined, Survivors;
    RequestPages(op.start, op.count * (l.k * l.w), l);
    MultipleDivides(op.count, l.k * l.w);
    ghost var q := op.start / (l.k * l.w);
    var inside, pages := dev.Read(ShardStart(op.start, dev.slabBytes, dev.k), op.count, op.stale, q);
    if !inside {
      NotRecoverable(dev.Now(), l.k);
      return [];
    }
    result := Joined(pages, dev.pageSize);
    if Readable(dev.Now(), l.k) {
      ReturnsAnswers(before, op, l, dev.pages, dev.written, pages);
    }
  }

  lemma NotRecoverable(o: Outlook, k: nat)
    requires k <= |o.cbIndex| == |o.inErr| && |Survivors(Unmapped(o.cbIndex), |o.cbIndex|)| < k
    ensures !Readable(o, k)
  {}

  /** evict_handler for a STOP. */
  method DoEvict(dev: Device, op: Op, l: Layout)
    requires op.EvictOp? && HasLayout(dev, l) && Fits(op, l) && dev.Coherent()
    modifies dev.session
    ensures dev.Coherent()
    ensures |old(dev.Now()).slots| == |old(dev.Now()).cbIndex| == |old(dev.Now()).inErr| == l.m && l.k <= l.m
    ensures dev.Now() == After(old(dev.Now()), op, l.k)
    ensures forall s | 0 <= s < |old(dev.session.cbIndexMap)| :: s < |dev.session.cbIndexMap| && dev.session.cbIndexMap[s] ==
              if old(dev.session.cbIndexMap)[s] == op.server && op.shards[s] then NO_CB_MAPPED else old(dev.session.cbIndexMap)[s]
  {
    hide Stored, DecoderReady, HoldsTables, LiveServers, Settled, History, CauchyMatrix, Rows, MarksOf, Named;
    hide IsMemory, Addressed, Group, Survivors;
    ghost var o := dev.Now();
    DevicePlaced(dev);
    MarksNamed(dev.session.Now(), dev.Now(), op.server, op.shards);
    var marks := MarkSlabs(dev.session.cbIndexMap, dev.session.chunkMapCbChunk, op.server, op.shards, dev.Now());
    dev.Evict(op.server, marks);
    forall s | 0 <= s < |o.cbIndex|
      ensures dev.session.cbIndexMap[s] == if o.cbIndex[s] == op.server && op.shards[s] then NO_CB_MAPPED else o.cbIndex[s]
    {
      OneOpOnShard(o, o, op, l.k, s);
    }
  }

  /** One op. */
  method DoOp(dev: Device, op: Op, l: Layout, ghost before: seq<Op>) returns (result: Vector)
    requires HasLayout(dev, l) && Fits(op, l) && dev.Coherent() && Remembers(before, dev.pages, dev.written, l.k * l.w)
    modifies dev, dev.session, dev.decodeMatrix, dev.invertMatrix, dev.decodeTbls
    ensures HasLayout(dev, l) && dev.Coherent() && Remembers(before + [op], dev.pages, dev.written, l.k * l.w)
    ensures |old(dev.Now()).slots| == |old(dev.Now()).cbIndex| == |old(dev.Now()).inErr| == l.m && l.k <= l.m
    ensures dev.Now() == After(old(dev.Now()), op, l.k)
    ensures op.ReadOp? && Readable(old(dev.Now()), l.k) ==> Answers(before, op, result, l.k * l.w)
  {
    hide Remembers, Answers, Stored, DecoderReady, HoldsTables, LiveServers, Settled, History, CauchyMatrix, Rows, MarksOf;
    hide IsMemory, Addressed, Group, Readable, Survivors, Fits;
    result := [];
    TablesMatch(dev.session.Now());
    if !op.WriteOp? {
      RememberOther(before, op, dev.pages, dev.written, l.k * l.w);
    }
    match op {
      case WriteOp(_, _) => DoWrite(dev, op, l, before);
      case ReadOp(_, _, _) => result := DoRead(dev, op, l, before);
      case DisconnectOp(server, below) =>
        ServerOf(op, l);
        var inside := dev.Disconnect(server, below);
      case EvictOp(_, _) => DoEvict(dev, op, l);
    }
  }

  lemma ServerOf(op: Op, l: Layout)
    requires op.DisconnectOp? && Fits(op, l)
    ensures op.server < l.servers
  {}

  lemma TablesMatch(v: View)
    requires Settled(v)
    ensures |v.chunkMapCbChunk| == |v.cbIndexMap|
  {}

  /** Over any run of requests, disconnects and evictions, every read returns the last byte written at each of its
      addresses whenever the tables of its moment make it readable; the tables are a function of the ops so far. */
  method RunOps(dev: Device, ops: seq<Op>, l: Layout) returns (results: seq<Vector>)
    requires HasLayout(dev, l) && dev.Coherent() && dev.written == {} && forall n | 0 <= n < |ops| :: Fits(ops[n], l)
    modifies dev, dev.session, dev.decodeMatrix, dev.invertMatrix, dev.decodeTbls
    ensures HasLayout(dev, l) && dev.Coherent() && |results| == |ops|
    ensures |old(dev.Now()).slots| == |old(dev.Now()).cbIndex| == |old(dev.Now()).inErr| == l.m && l.k <= l.m
    ensures dev.Now() == AfterAll(old(dev.Now()), ops, l.k)
    ensures forall n | 0 <= n < |ops| && ops[n].ReadOp? && Readable(AfterAll(old(dev.Now()), ops[..n], l.k), l.k) ::
              Answers(ops[..n], ops[n], results[n], l.k * l.w)
    ensures forall c | 0 <= c < l.servers :: dev.cbStateList[c] == if Disconnected(ops, c) then Fail else old(dev.cbStateList)[c]
    ensures |dev.session.cbIndexMap| == |old(dev.session.cbIndexMap)| == l.m && forall s | 0 <= s < l.m ::
              dev.session.cbIndexMap[s] == if TakenAway(ops, old(dev.session.cbIndexMap)[s], s) then NO_CB_MAPPED
                                           else old(dev.session.cbIndexMap)[s]
  {
    hide Remembers, Answers, Stored, DecoderReady, HoldsTables, LiveServers, Settled, History, CauchyMatrix, Rows, After;
    hide IsMemory, Addressed, Group, Readable, Survivors, Fits, Placed, TakenAway, Disconnected;
    ghost var start := dev.Now();
    DevicePlaced(dev);
    TablesMatch(dev.session.Now());
    NothingRemembered(dev.pages, dev.written, l.k * l.w);
    results := [];
    for n := 0 to |ops|
      invariant HasLayout(dev, l) && dev.Coherent() && |results| == n
      invariant dev.Now() == AfterAll(start, ops[..n], l.k) && Remembers(ops[..n], dev.pages, dev.written, l.k * l.w)
      invariant forall h | 0 <= h < n && ops[h].ReadOp? && Readable(AfterAll(start, ops[..h], l.k), l.k) ::
        Answers(ops[..h], ops[h], results[h], l.k * l.w)
    {
      assert ops[..n + 1] == ops[..n] + [ops[n]] && ops[..n + 1][..n] == ops[..n];
      var result := DoOp(dev, ops[n], l, ops[..n]);
      results := results + [result];
    }
    assert ops[..|ops|] == ops;
    AfterRun(start, ops, l.k);
  }

  lemma AfterRun(o: Outlook, ops: seq<Op>, k: nat)
    requires Placed(o) && k <= |o.cbIndex|
    ensures forall c | 0 <= c < |o.states| :: AfterAll(o, ops, k).states[c] == if Disconnected(ops, c) then Fail else o.states[c]
    ensures forall s | 0 <= s < |o.cbIndex| ::
              AfterAll(o, ops, k).cbIndex[s] == if TakenAway(ops, o.cbIndex[s], s) then NO_CB_MAPPED else o.cbIndex[s]
  {
    hide AfterAll;
    forall c | 0 <= c < |o.states|
      ensures AfterAll(o, ops, k).states[c] == if Disconnected(ops, c) then Fail else o.states[c]
    {
      StatesAfterRun(o, ops, k, c);
    }
    forall s | 0 <= s < |o.cbIndex|
      ensures AfterAll(o, ops, k).cbIndex[s] == if TakenAway(ops, o.cbIndex[s], s) then NO_CB_MAPPED else o.cbIndex[s]
    {
      ShardsAfterRun(o, ops, k, s);
    }
  }

  lemma NothingRemembered(pages: Matrix, written: set<nat>, size: nat)
    ensures Remembers([], pages, written, size)
  {}

  // ---------- Which runs are readable throughout ----------

  /** No server holds two shards of the group. */
  ghost predicate DistinctServers(cbIndex: seq<int>) {
    forall r, s | 0 <= r < s < |cbIndex| && cbIndex[r] != NO_CB_MAPPED :: cbIndex[r] != cbIndex[s]
  }

  /** The ops that can take a shard away. */
  function Losses(ops: seq<Op>): (n: nat) {
    if ops == [] then 0
    else Losses(ops[..|ops| - 1]) + if ops[|ops| - 1].DisconnectOp? || ops[|ops| - 1].EvictOp? then 1 else 0
  }

  /** Since the last eviction the error lists have been made anew: by the disconnect of a server with a mapped slab. */
  ghost predicate Rebuilt(o: Outlook, ops: seq<Op>, k: nat)
    requires |o.slots| == |o.cbIndex| == |o.inErr| && k <= |o.cbIndex|
  {
    ops == [] ||
    var before, op := ops[..|ops| - 1], ops[|ops| - 1];
    match op
    case EvictOp(_, _) => false
    case DisconnectOp(server, _) =>
      var o' := AfterAll(o, before, k);
      (server < |o'.states| && o'.states[server] != Connected) || Rebuilt(o, before, k)
    case _ => Rebuilt(o, before, k)
  }

  /** The server holds one of the first n shards. */
  ghost predicate Holds(cbIndex: seq<int>, c: nat, n: nat)
    requires n <= |cbIndex|
  {
    exists s :: 0 <= s < n && cbIndex[s] == c
  }

  /** Some shards of server c have become unmapped. */
  ghost predicate Fewer(cbIndex: seq<int>, cbIndex': seq<int>, c: nat) {
    && |cbIndex'| == |cbIndex|
    && forall s | 0 <= s < |cbIndex| :: cbIndex'[s] == cbIndex[s] || (cbIndex[s] == c && cbIndex'[s] == NO_CB_MAPPED)
  }

  /** On distinct servers that costs the group at most one shard. */
  lemma {:induction false} OneLostAtMost(cbIndex: seq<int>, cbIndex': seq<int>, c: nat, n: nat)
    requires DistinctServers(cbIndex) && Fewer(cbIndex, cbIndex', c) && n <= |cbIndex|
    ensures DistinctServers(cbIndex')
    ensures |Lost(Unmapped(cbIndex'), n)| <= |Lost(Unmapped(cbIndex), n)| + if Holds(cbIndex, c, n) then 1 else 0
  {
    if n == 0 {
    } else {
      OneLostAtMost(cbIndex, cbIndex', c, n - 1);
      LostStep(Unmapped(cbIndex), n - 1);
      LostStep(Unmapped(cbIndex'), n - 1);
      if cbIndex[n - 1] == c {
        assert Holds(cbIndex, c, n) && !Holds(cbIndex, c, n - 1);
      } else {
        assert Holds(cbIndex, c, n) <==> Holds(cbIndex, c, n - 1);
      }
    }
  }

  /** A scan that may find as many errors as there are finds all of them. */
  lemma ScannedAll(lost: seq<bool>, most: nat)
    requires |Lost(lost, |lost|)| <= most
    ensures Scanned(lost, most) == lost
  {
    hide Lost;
    forall s | 0 <= s < |lost| ensures Scanned(lost, most)[s] == lost[s] {
      if lost[s] {
        LostBetween(lost, s + 1, |lost|);
        LostStep(lost, s);
      }
    }
  }

  /** The group after at most `losses` losses. */
  ghost predicate Kept(o: Outlook, losses: nat) {
    && |o.slots| == |o.cbIndex| == |o.inErr| && DistinctServers(o.cbIndex) && LiveServers(o.cbIndex, o.states)
    && |Lost(Unmapped(o.cbIndex), |o.cbIndex|)| <= losses
  }

  lemma DisconnectKept(o: Outlook, c: nat, k: nat, losses: nat)
    requires Kept(o, losses) && k <= |o.cbIndex| && c < |o.states|
    ensures Kept(AfterDisconnect(o, c, k), losses + 1)
    ensures o.states[c] == Connected ==>
              AfterDisconnect(o, c, k).cbIndex == o.cbIndex && AfterDisconnect(o, c, k).inErr == o.inErr
    ensures o.states[c] != Connected && losses + 1 <= |o.cbIndex| - k ==>
              AfterDisconnect(o, c, k).inErr == Unmapped(AfterDisconnect(o, c, k).cbIndex)
  {
    hide Lost, Scanned;
    var o' := AfterDisconnect(o, c, k);
    OneLostAtMost(o.cbIndex, WithoutServer(o.cbIndex, c), c, |o.cbIndex|);
    if o.states[c] != Connected && losses + 1 <= |o.cbIndex| - k {
      ScannedAll(Unmapped(o'.cbIndex), |o.cbIndex| - k);
    }
  }

  lemma EvictKept(o: Outlook, c: nat, marks: seq<bool>, losses: nat)
    requires Kept(o, losses)
    ensures Kept(AfterEvict(o, c, marks), losses + 1)
  {
    hide Lost;
    OneLostAtMost(o.cbIndex, AfterEvict(o, c, marks).cbIndex, c, |o.cbIndex|);
  }

  lemma {:induction false} RunKept(o: Outlook, ops: seq<Op>, k: nat)
    requires Kept(o, 0) && k <= |o.cbIndex| && o.inErr == Unmapped(o.cbIndex)
    ensures Kept(AfterAll(o, ops, k), Losses(ops))
    ensures Rebuilt(o, ops, k) && Losses(ops) <= |o.cbIndex| - k ==>
              AfterAll(o, ops, k).inErr == Unmapped(AfterAll(o, ops, k).cbIndex)
    decreases |ops|
  {
    hide Kept, AfterDisconnect, AfterEvict, Unmapped, MarksOf;
    KeptShape(o, 0);
    if ops == [] {
    } else {
      var before, op := ops[..|ops| - 1], ops[|ops| - 1];
      RunKept(o, before, k);
      var now := AfterAll(o, before, k);
      match op
      case DisconnectOp(server, _) =>
        if server < |now.states| {
          DisconnectKept(now, server, k, Losses(before));
        } else {
          MoreLosses(now, Losses(before));
        }
      case EvictOp(server, shards) => EvictKept(now, server, MarksOf(now, server, shards), Losses(before));
      case _ =>
    }
  }

  lemma KeptShape(o: Outlook, losses: nat)
    requires Kept(o, losses)
    ensures |o.slots| == |o.cbIndex| == |o.inErr|
  {}

  lemma MoreLosses(o: Outlook, losses: nat)
    requires Kept(o, losses)
    ensures Kept(o, losses + 1)
  {}

  /** Error lists that are up to date miss nothing. */
  lemma UpToDate(o: Outlook, k: nat)
    requires k <= |o.cbIndex| && o.inErr == Unmapped(o.cbIndex) && |Lost(Unmapped(o.cbIndex), |o.cbIndex|)| <= |o.cbIndex| - k
    ensures Readable(o, k)
  {
    LostAndSurvivors(Unmapped(o.cbIndex), |o.cbIndex|);
    FirstSurvivors(Unmapped(o.cbIndex), k, |o.cbIndex|);
    hide Survivors, Lost;
    var rows := Survivors(o.inErr, |o.inErr|);
    assert forall s | 0 <= s < |o.inErr| :: o.inErr[s] <==> o.cbIndex[s] == NO_CB_MAPPED;
    forall i | 0 <= i < k ensures o.cbIndex[rows[i]] != NO_CB_MAPPED {
      assert rows[..k][i] == rows[i];
    }
  }

  /** A complete group on distinct servers is readable after any m - k disconnects and evictions, if a disconnect of a
      server with a mapped slab comes after the last eviction. */
  lemma ReadableThroughout(o: Outlook, ops: seq<Op>, k: nat)
    requires |o.slots| == |o.cbIndex| == |o.inErr| && DistinctServers(o.cbIndex) && LiveServers(o.cbIndex, o.states)
    requires k <= |o.cbIndex| && (forall s | 0 <= s < |o.cbIndex| :: o.cbIndex[s] != NO_CB_MAPPED && !o.inErr[s])
    requires Losses(ops) <= |o.cbIndex| - k && Rebuilt(o, ops, k)
    ensures Readable(AfterAll(o, ops, k), k)
  {
    AllMapped(o.cbIndex, |o.cbIndex|);
    assert o.inErr == Unmapped(o.cbIndex);
    RunKept(o, ops, k);
    UpToDate(AfterAll(o, ops, k), k);
    hide Lost, Rebuilt;
  }

  lemma AllMapped(cbIndex: seq<int>, n: nat)
    requires n <= |cbIndex| && forall s | 0 <= s < |cbIndex| :: cbIndex[s] != NO_CB_MAPPED
    ensures Lost(Unmapped(cbIndex), n) == []
  {
    NoneLost(Unmapped(cbIndex), n);
  }

  lemma {:induction false} NoneLost(lost: seq<bool>, n: nat)
    requires n <= |lost| && forall s | 0 <= s < |lost| :: !lost[s]
    ensures Lost(lost, n) == []
  {
    if n == 0 {
    } else {
      NoneLost(lost, n - 1);
    }
  }

  /** Without evictions the lists never have to be made anew. */
  lemma {:induction false} NoEvictions(o: Outlook, ops: seq<Op>, k: nat)
    requires |o.slots| == |o.cbIndex| == |o.inErr| && k <= |o.cbIndex| && forall n | 0 <= n < |ops| :: !ops[n].EvictOp?
    ensures Rebuilt(o, ops, k)
    decreases |ops|
  {
    if ops == [] {
    } else {
      NoEvictions(o, ops[..|ops| - 1], k);
    }
  }
}
