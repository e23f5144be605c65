/** A remote block device with one coding group: writes, degraded reads, evictions and server disconnects. */
module BlockDevice {
  import opened Matrices
  import opened GaussJordan
  import opened Cauchy
  import opened MulTables
  import opened Encode
  import opened Decode
  import opened Striping
  import opened SlabMap
  import opened ShardIo
  import opened Pages
  import opened ShardStore
  import opened ReadPath

  // ---------- Error lists ----------

  /** The shards whose server has failed, or that no server holds. */
  function Failed(cbIndex: seq<int>, states: seq<CbState>): (lost: seq<bool>)
    requires forall s | 0 <= s < |cbIndex| :: NO_CB_MAPPED <= cbIndex[s] < |states|
    ensures |lost| == |cbIndex|
  {
    seq(|cbIndex|, s requires 0 <= s < |cbIndex| => cbIndex[s] < 0 || states[cbIndex[s]] == Fail)
  }

  lemma {:induction false} LostBetween(lost: seq<bool>, r: nat, n: nat)
    requires r <= n <= |lost|
    ensures |Lost(lost, r)| <= |Lost(lost, n)|
    ensures |Lost(lost, r)| == |Lost(lost, n)| ==> forall i | r <= i < n :: !lost[i]
    decreases n
  {
    if r == n {
    } else {
      LostBetween(lost, r, n - 1);
    }
  }

  lemma {:induction false} LostAll(lost: seq<bool>, n: nat)
    requires n <= |lost|
    ensures forall i | 0 <= i < n && lost[i] :: i in Lost(lost, n)
  {
    if n == 0 {
    } else {
      LostAll(lost, n - 1);
    }
  }

  lemma LostNone(lost: seq<bool>)
    ensures Lost(lost, 0) == []
  {}

  lemma LostStep(lost: seq<bool>, i: nat)
    requires i < |lost|
    ensures Lost(lost, i + 1) == if lost[i] then Lost(lost, i) + [i] else Lost(lost, i)
  {}

  /** The errors that a scan finds which stops after the first `most` of them. */
  lemma {:induction false} LostCut(lost: seq<bool>, inErr: seq<bool>, i: nat, n: nat)
    requires i <= |lost| == |inErr| && n <= |lost|
    requires forall s | 0 <= s < |lost| :: inErr[s] == (s < i && lost[s])
    ensures Lost(inErr, n) == Lost(lost, if n < i then n else i)
  {
    if n == 0 {
    } else {
      LostCut(lost, inErr, i, n - 1);
    }
  }

  /** What cb_state_list[j] holds; `below` is the word before the list, which index -1 reads. */
  function StateAt(states: seq<CbState>, below: CbState, j: int): CbState
    requires -1 <= j < |states|
  {
    if j < 0 then below else states[j]
  }

  /** Every shard that the scan gets to, before it has found m - k errors, is mapped. */
  ghost predicate ScansMapped(cbIndex: seq<int>, states: seq<CbState>, k: nat, m: nat)
    requires |cbIndex| == m && k <= m && forall s | 0 <= s < m :: NO_CB_MAPPED <= cbIndex[s] < |states|
  {
    forall s | 0 <= s < m && |Lost(Failed(cbIndex, states), s)| < m - k :: cbIndex[s] != NO_CB_MAPPED
  }

  /** The loop of IS_disconnect_handler that finds what is lost; it stops at m - k errors. What it finds depends on the
      states of the mapped shards only, not on the word before the list; that word is read exactly when some scanned
      shard is unmapped. While the group can be recovered at all, every lost shard is found. */
  method ScanErrors(cbIndex: seq<int>, states: seq<CbState>, below: CbState, k: nat, m: nat)
    returns (inErr: seq<bool>, errList: seq<nat>, nsrcerrs: nat, inside: bool)
    requires |cbIndex| == m && k <= m
    requires forall s | 0 <= s < m :: NO_CB_MAPPED <= cbIndex[s] < |states|
    ensures ErrorLists(inErr, errList, nsrcerrs, k, m)
    ensures inErr == Scanned(Failed(cbIndex, states), m - k)
    ensures errList == Lost(inErr, m) && nsrcerrs == |Lost(inErr, k)|
    ensures inside <==> ScansMapped(cbIndex, states, k, m)
    ensures |Survivors(Failed(cbIndex, states), m)| >= k ==> inErr == Failed(cbIndex, states)
  {
    hide Lost, Survivors, Failed, ErrorLists, ScansMapped;
    ghost var lost := Failed(cbIndex, states);
    LostNone(lost);
    inErr, errList, nsrcerrs, inside := seq(m, _ => false), [], 0, true;
    var i := 0;
    while i < m && |errList| < m - k
      invariant i <= m && |inErr| == m && errList == Lost(lost, i) && |errList| <= m - k
      invariant forall s | 0 <= s < m :: inErr[s] == (s < i && lost[s])
      invariant nsrcerrs <= |errList| && (i <= k ==> nsrcerrs == |errList|) && (i > k ==> nsrcerrs == |Lost(lost, k)|)
      invariant forall p | 0 <= p < |errList| :: p < nsrcerrs <==> errList[p] < k
      invariant inside <==> forall s | 0 <= s < i :: cbIndex[s] != NO_CB_MAPPED
      invariant forall s | 0 <= s < i :: |Lost(lost, s)| < m - k
    {
      LostStep(lost, i);
      FailedAt(cbIndex, states, i);
      var j := cbIndex[i];
      inside := inside && j >= 0;
      if StateAt(states, below, j) == Fail || j < 0 {
        inErr := inErr[i := true];
        errList := errList + [i];
        if i < k {
          nsrcerrs := nsrcerrs + 1;
        }
      }
      i := i + 1;
    }
    ScanLists(lost, inErr, errList, nsrcerrs, i, k, m);
    ScanReach(lost, i, k, m);
    ScanComplete(lost, inErr, i, k, m);
    ScansBelow(cbIndex, states, i, k, m);
    assert inErr == Scanned(lost, m - k);
  }

  lemma ScansBelow(cbIndex: seq<int>, states: seq<CbState>, i: nat, k: nat, m: nat)
    requires |cbIndex| == m && k <= m && i <= m && forall s | 0 <= s < m :: NO_CB_MAPPED <= cbIndex[s] < |states|
    requires forall s | 0 <= s < m :: s < i <==> |Lost(Failed(cbIndex, states), s)| < m - k
    ensures ScansMapped(cbIndex, states, k, m) <==> forall s | 0 <= s < i :: cbIndex[s] != NO_CB_MAPPED
  {
    hide Lost, Failed;
    assert ScansMapped(cbIndex, states, k, m) ==> forall s | 0 <= s < i :: cbIndex[s] != NO_CB_MAPPED;
  }

  lemma FailedAt(cbIndex: seq<int>, states: seq<CbState>, s: nat)
    requires forall r | 0 <= r < |cbIndex| :: NO_CB_MAPPED <= cbIndex[r] < |states|
    requires s < |cbIndex|
    ensures Failed(cbIndex, states)[s] == (cbIndex[s] < 0 || states[cbIndex[s]] == Fail)
  {}

  /** What a scan has found when it stops: proper error lists, */
  lemma ScanLists(lost: seq<bool>, inErr: seq<bool>, errList: seq<nat>, nsrcerrs: nat, i: nat, k: nat, m: nat)
    requires |lost| == |inErr| == m && k <= m && i <= m && errList == Lost(lost, i) && |errList| <= m - k
    requires forall s | 0 <= s < m :: inErr[s] == (s < i && lost[s])
    requires nsrcerrs <= |errList| && (i <= k ==> nsrcerrs == |errList|) && (i > k ==> nsrcerrs == |Lost(lost, k)|)
    requires forall p | 0 <= p < |errList| :: p < nsrcerrs <==> errList[p] < k
    ensures ErrorLists(inErr, errList, nsrcerrs, k, m)
    ensures errList == Lost(inErr, m) && nsrcerrs == |Lost(inErr, k)|
  {
    hide Lost, Survivors;
    LostAndSurvivors(lost, i);
    LostAll(lost, i);
    LostCut(lost, inErr, i, m);
    LostCut(lost, inErr, i, k);
  }

  /** the shards before which fewer than m - k are lost, */
  lemma ScanReach(lost: seq<bool>, i: nat, k: nat, m: nat)
    requires |lost| == m && k <= m && i <= m && (i == m || |Lost(lost, i)| == m - k)
    requires forall s | 0 <= s < i :: |Lost(lost, s)| < m - k
    ensures forall s | 0 <= s < m :: s < i <==> |Lost(lost, s)| < m - k
  {
    hide Lost;
    forall s | i <= s < m ensures |Lost(lost, s)| >= m - k {
      LostBetween(lost, i, s);
    }
  }

  /** and all that is lost, while k shards are left. */
  lemma ScanComplete(lost: seq<bool>, inErr: seq<bool>, i: nat, k: nat, m: nat)
    requires |lost| == |inErr| == m && k <= m && i <= m && (i == m || |Lost(lost, i)| == m - k)
    requires forall s | 0 <= s < m :: inErr[s] == (s < i && lost[s])
    ensures |Survivors(lost, m)| >= k ==> inErr == lost
  {
    hide Lost, Survivors;
    LostAndSurvivors(lost, m);
    LostBetween(lost, i, m);
  }

  /** The very first shard being unmapped already makes the scan leave the list. */
  lemma ScanLeavesList(states: seq<CbState>)
    requires |states| > 0
    ensures !ScansMapped([NO_CB_MAPPED, 0], states, 1, 2)
  {
    LostNone(Failed([NO_CB_MAPPED, 0], states));
    assert [NO_CB_MAPPED, 0][0] == NO_CB_MAPPED;
  }

  /** Mapped shards sit on live servers. */
  ghost predicate LiveServers(cbIndex: seq<int>, states: seq<CbState>) {
    && (forall s | 0 <= s < |cbIndex| :: NO_CB_MAPPED <= cbIndex[s] < |states|)
    && forall s | 0 <= s < |cbIndex| && cbIndex[s] != NO_CB_MAPPED :: states[cbIndex[s]] != Fail && states[cbIndex[s]] != Connected
  }

  // ---------- What decides a read ----------

  /** The tables and lists that decide which reads are right. */
  datatype Outlook = Outlook(cbIndex: seq<int>, slots: seq<int>, states: seq<CbState>, inErr: seq<bool>)

  /** What a scan marks that stops after `most` errors. */
  function Scanned(lost: seq<bool>, most: nat): (inErr: seq<bool>)
    ensures |inErr| == |lost|
  {
    seq(|lost|, s requires 0 <= s < |lost| => lost[s] && |Lost(lost, s)| < most)
  }

  function AfterEvict(o: Outlook, c: nat, marks: seq<bool>): Outlook
    requires |o.slots| == |o.cbIndex|
  {
    o.(cbIndex := WithoutSlots(o.cbIndex, o.slots, c, marks), slots := SlotsLeft(o.cbIndex, o.slots, c, marks))
  }

  /** A disconnect; a server without chunks only changes its state. */
  function AfterDisconnect(o: Outlook, c: nat, k: nat): Outlook
    requires |o.slots| == |o.cbIndex| && k <= |o.cbIndex| && c < |o.states|
  {
    if o.states[c] == Connected then o.(states := o.states[c := Fail])
    else
      var left := WithoutServer(o.cbIndex, c);
      Outlook(left, SlotsLeft(o.cbIndex, o.slots, c, AllSlots()), o.states[c := Fail], Scanned(Unmapped(left), |left| - k))
  }

  /** A read comes back right: k shards are left to fetch, and none that it needs is missing. It needs the data shards if
      no error among them is known, and otherwise the first k shards that are not known to be lost. */
  ghost predicate Readable(o: Outlook, k: nat)
    requires k <= |o.cbIndex| == |o.inErr|
  {
    && k <= |Survivors(Unmapped(o.cbIndex), |o.cbIndex|)|
    && if forall i | 0 <= i < k :: !o.inErr[i] then forall i | 0 <= i < k :: o.cbIndex[i] != NO_CB_MAPPED
       else forall i | 0 <= i < k && i < |Survivors(o.inErr, |o.inErr|)| ::
              o.cbIndex[Survivors(o.inErr, |o.inErr|)[i]] != NO_CB_MAPPED
  }

  // ---------- Losing chunks ----------

  /** Shards on the disconnected server become unmapped. */
  function WithoutServer(cbIndex: seq<int>, c: nat): (r: seq<int>)
    ensures |r| == |cbIndex|
  {
    seq(|cbIndex|, s requires 0 <= s < |cbIndex| => if cbIndex[s] == c then NO_CB_MAPPED else cbIndex[s])
  }

  /** Chunk s is on server c, in one of the marked slots. */
  predicate InSlots(cbIndex: seq<int>, slots: seq<int>, c: nat, marks: seq<bool>, s: nat)
    requires |slots| == |cbIndex| && s < |cbIndex|
  {
    cbIndex[s] == c && 0 <= slots[s] < |marks| && marks[slots[s]]
  }

  /** The chunks of server c in the marked slots become unmapped. */
  function WithoutSlots(cbIndex: seq<int>, slots: seq<int>, c: nat, marks: seq<bool>): (r: seq<int>)
    requires |slots| == |cbIndex|
    ensures |r| == |cbIndex|
  {
    seq(|cbIndex|, s requires 0 <= s < |cbIndex| => if InSlots(cbIndex, slots, c, marks, s) then NO_CB_MAPPED else cbIndex[s])
  }

  /** And lose their slots. */
  function SlotsLeft(cbIndex: seq<int>, slots: seq<int>, c: nat, marks: seq<bool>): (r: seq<int>)
    requires |slots| == |cbIndex|
    ensures |r| == |cbIndex|
  {
    seq(|cbIndex|, s requires 0 <= s < |cbIndex| => if InSlots(cbIndex, slots, c, marks, s) then -1 else slots[s])
  }

  lemma CutIsWithoutSlots(v: View, c: nat, stop: seq<bool>)
    requires Settled(v) && c < |v.chunkMap| && |stop| == MAX_MR_SIZE_GB
    ensures |v.chunkMapCbChunk| == |v.cbIndexMap|
    ensures Cut(v, c, stop).cbIndexMap == WithoutSlots(v.cbIndexMap, v.chunkMapCbChunk, c, stop)
    ensures Cut(v, c, stop).chunkMapCbChunk == SlotsLeft(v.cbIndexMap, v.chunkMapCbChunk, c, stop)
    ensures |Cut(v, c, stop).chunkMap| == |v.chunkMap|
    ensures Addressed(Cut(v, c, stop).cbIndexMap, Cut(v, c, stop).chunkMapCbChunk, |v.chunkMap|)
    ensures forall s | 0 <= s < |v.cbIndexMap| && Cut(v, c, stop).cbIndexMap[s] != NO_CB_MAPPED ::
              Cut(v, c, stop).cbIndexMap[s] == v.cbIndexMap[s] && Cut(v, c, stop).chunkMapCbChunk[s] == v.chunkMapCbChunk[s]
  {}

  lemma AllSlotsOfServer(v: View, c: nat)
    requires Settled(v)
    ensures |v.chunkMapCbChunk| == |v.cbIndexMap|
    ensures WithoutSlots(v.cbIndexMap, v.chunkMapCbChunk, c, AllSlots()) == WithoutServer(v.cbIndexMap, c)
  {}

  lemma FailedIsUnmapped(cbIndex: seq<int>, states: seq<CbState>, c: nat)
    requires LiveServers(cbIndex, states) && c < |states|
    ensures LiveServers(WithoutServer(cbIndex, c), states[c := Fail])
    ensures forall s | 0 <= s < |cbIndex| :: NO_CB_MAPPED <= cbIndex[s] < |states|
    ensures Failed(cbIndex, states[c := Fail]) == Unmapped(WithoutServer(cbIndex, c))
    ensures forall s | 0 <= s < |cbIndex| && Failed(cbIndex, states[c := Fail])[s] :: WithoutServer(cbIndex, c)[s] == NO_CB_MAPPED
  {}

  lemma TablesFit(k: nat, rows: nat, most: nat)
    requires rows <= most
    ensures 32 * (rows * k) <= 32 * (most * k)
  {
    ProductMonotone(rows, most, k);
  }

  /** The middle of IS_disconnect_handler: error lists, decode matrix and decode tables. */
  method BuildDecoder(cbIndex: seq<int>, states: seq<CbState>, below: CbState, k: nat, m: nat, encodeMatrix: array2<bv8>,
                      decodeMatrix: array2<bv8>, invertMatrix: array2<bv8>, decodeTbls: array<bv8>)
    returns (inErr: seq<bool>, errList: seq<nat>, nsrcerrs: nat, decodeIndex: seq<nat>, inside: bool,
             ghost decode: Matrix, ghost inverse: Matrix)
    requires k <= m <= 256 && |cbIndex| == m && forall s | 0 <= s < m :: NO_CB_MAPPED <= cbIndex[s] < |states|
    requires encodeMatrix.Length0 == decodeMatrix.Length0 == m
    requires encodeMatrix.Length1 == decodeMatrix.Length1 == invertMatrix.Length0 == invertMatrix.Length1 == k
    requires encodeMatrix != decodeMatrix && encodeMatrix != invertMatrix && decodeMatrix != invertMatrix
    requires Rows(encodeMatrix) == CauchyMatrix(m, k) && decodeTbls.Length >= 32 * ((m - k) * k)
    modifies decodeMatrix, invertMatrix, decodeTbls
    ensures DecoderReady(k, m, Decoder(inErr, errList, nsrcerrs, decodeIndex, decode, inverse, decodeTbls[..]))
    ensures |decodeIndex| == k && forall i | 0 <= i < k :: decodeIndex[i] < m
    ensures inErr == Scanned(Failed(cbIndex, states), m - k)
    ensures |Survivors(Failed(cbIndex, states), m)| >= k ==> inErr == Failed(cbIndex, states)
    ensures inside <==> ScansMapped(cbIndex, states, k, m)
  {
    hide HoldsTables, CauchyMatrix, Survivors, Rows, ErrorLists, Recovers, Restores, RowChoice, Failed, Lost, IsInverse, Scanned;
    inErr, errList, nsrcerrs, inside := ScanErrors(cbIndex, states, below, k, m);
    ErrorsFit(inErr, errList, nsrcerrs, k, m);
    var ret;
    ret, decodeIndex := GfGenDecodeMatrix(encodeMatrix, decodeMatrix, invertMatrix, errList, inErr, nsrcerrs, k, m);
    ChoiceShape(decodeIndex, m, k);
    inverse := Rows(invertMatrix);
    TablesFit(k, |errList|, m - k);
    EcInitTables(k, |errList|, decodeMatrix, 0, decodeTbls);
    decode := Rows(decodeMatrix)[..|errList|];
    PrefixRecovers(Rows(decodeMatrix), decodeIndex, errList, k, m);
  }

  lemma ErrorsFit(inErr: seq<bool>, errList: seq<nat>, nsrcerrs: nat, k: nat, m: nat)
    requires ErrorLists(inErr, errList, nsrcerrs, k, m)
    ensures |inErr| == m && |errList| <= m - k
  {}

  lemma PrefixRecovers(decode: Matrix, rows: seq<nat>, errList: seq<nat>, k: nat, m: nat)
    requires RowChoice(rows, m, k) && |errList| <= |decode| && IsMatrix(decode, |decode|, k)
    requires Recovers(decode, rows, errList, k, m)
    ensures Recovers(decode[..|errList|], rows, errList, k, m)
  {}

  /** The page numbers from q to q + n - 1. */
  function Run(q: nat, n: nat): (run: set<nat>)
    ensures forall t: nat :: t in run <==> q <= t < q + n
  {
    if n == 0 then {} else Run(q, n - 1) + {q + n - 1}
  }

  /** The encoding matrix and the tables of its parity rows, as the lines of IS_ec_init say. */
  method NewEncoder(k: nat, m: nat) returns (enc: array2<bv8>, tables: array<bv8>)
    requires 1 <= k <= m <= 256
    ensures fresh(enc) && fresh(tables) && enc.Length0 == m && enc.Length1 == k && Rows(enc) == CauchyMatrix(m, k)
    ensures HoldsTables(tables[..], CauchyMatrix(m, k)[k..], k)
  {
    hide HoldsTables, CauchyMatrix, Rows;
    enc := new bv8[m, k];
    GfGenCauchy1Matrix(enc, m, k);
    TablesFit(k, m - k, m - k);
    tables := new bv8[32 * ((m - k) * k)];
    EcInitTables(k, m - k, enc, k, tables);
    assert CauchyMatrix(m, k)[k..m] == CauchyMatrix(m, k)[k..];
  }

  class Device {
    const k: nat
    const m: nat
    const w: nat
    /** k strips of w bytes. */
    const pageSize: nat
    /** The bytes of a chunk on a server, and of the device. */
    const slabSize: nat
    const slabBytes: nat
    const encodeMatrix: array2<bv8>
    const encodeTbls: array<bv8>
    const decodeMatrix: array2<bv8>
    const invertMatrix: array2<bv8>
    const decodeTbls: array<bv8>
    const session: Session
    var cbStateList: seq<CbState>
    var srcInErr: seq<bool>
    var srcErrList: seq<nat>
    var nsrcerrs: nat
    var decodeIndex: seq<nat>
    /** The slabs of all servers, as they hold them. */
    var memory: Memory
    /** What has been written, and where. */
    ghost var pages: Matrix
    ghost var written: set<nat>
    ghost var decode: Matrix
    ghost var inverse: Matrix

    ghost predicate Arrays()
      reads this
    {
      && encodeMatrix.Length0 == decodeMatrix.Length0 == m
      && encodeMatrix.Length1 == decodeMatrix.Length1 == invertMatrix.Length0 == invertMatrix.Length1 == k
      && encodeMatrix != decodeMatrix && encodeMatrix != invertMatrix && decodeMatrix != invertMatrix
      && encodeTbls != decodeTbls && decodeTbls.Length >= 32 * ((m - k) * k)
    }

    /** The mapping tables lead to slabs that hold the right bytes. */
    ghost predicate Holding()
      reads this, session
    {
      && session.Valid() && |session.chunkMap| == |cbStateList| && |session.cbIndexMap| == m
      && LiveServers(session.cbIndexMap, cbStateList)
      && pages != [] && pageSize == k * w && slabSize == |pages| * w && slabBytes == |pages| * pageSize
      && IsMatrix(pages, |pages|, pageSize)
      && |memory| == |cbStateList| && IsMemory(memory, |memory|, slabSize)
      && Addressed(session.cbIndexMap, session.chunkMapCbChunk, |memory|)
      && Stored(k, m, w, session.cbIndexMap, Group(memory, session.cbIndexMap, session.chunkMapCbChunk, slabSize), pages, written)
    }

    ghost function Decoding(): Decoder
      reads this, decodeTbls
    {
      Decoder(srcInErr, srcErrList, nsrcerrs, decodeIndex, decode, inverse, decodeTbls[..])
    }

    /** What the reads of this moment depend on. */
    ghost function Now(): Outlook
      reads this, session
    {
      Outlook(session.cbIndexMap, session.chunkMapCbChunk, cbStateList, srcInErr)
    }

    /** What every operation keeps. */
    ghost predicate Coherent()
      reads this, session, encodeMatrix, encodeTbls, decodeTbls
    {
      && 1 <= k <= m <= 256 && w > 0 && Arrays() && Holding()
      && Rows(encodeMatrix) == CauchyMatrix(m, k) && HoldsTables(encodeTbls[..], CauchyMatrix(m, k)[k..], k)
      && DecoderReady(k, m, Decoding()) && |srcInErr| == m && (forall i | 0 <= i < |decodeIndex| :: decodeIndex[i] < m)
      && forall s | 0 <= s < m && srcInErr[s] :: session.cbIndexMap[s] == NO_CB_MAPPED
    }

    /** At least k shards of the group are mapped. */
    ghost predicate Recoverable()
      reads this, session
    {
      m <= |session.cbIndexMap| && k <= |Survivors(Unmapped(session.cbIndexMap), m)|
    }

    /** The result of a read: one page each, and those that have been written are as written. */
    ghost predicate Returns(q: nat, count: nat, result: Matrix)
      reads this
    {
      && IsMatrix(result, count, pageSize)
      && forall t: nat | q <= t < q + count && t < |pages| && t in written :: result[t - q] == pages[t]
    }

    /** Since `before` exactly the strips of these pages have been written, each to its own slab. */
    ghost predicate Wrote(before: Memory, at: nat, data: Matrix)
      reads this, session
    {
      && k <= m == |session.cbIndexMap| && w > 0 && IsMatrix(data, |data|, k * w) && at + |data| * w <= slabSize
      && Addressed(session.cbIndexMap, session.chunkMapCbChunk, |before|) && IsMemory(before, |before|, slabSize)
      && Posted(before, memory, session.cbIndexMap, session.chunkMapCbChunk, Codeword(m, k, Split(data, k, w), |data| * w), m,
                at, |data| * w, slabSize)
    }

    /** What a read from page q on returns at this moment if its buffers hold `stale` before. */
    ghost function ReadOf(q: nat, count: nat, stale: Matrix): (result: Matrix)
      requires q + count <= |pages| && StripBuffers(stale, m, count, w) && Coherent() && Recoverable()
      reads this, session, encodeMatrix, encodeTbls, decodeTbls
      ensures |result| == count
    {
      ChunkRange(q, count, |pages|, w);
      DecoderShape(k, m, Decoding());
      ReadResult(k, m, w, Group(memory, session.cbIndexMap, session.chunkMapCbChunk, slabSize),
                 Survivors(Unmapped(session.cbIndexMap), m)[..k], Decoding(), q, count, stale)
    }

    /** A device of `count` pages a slab, after all m chunks of its group have been mapped; nothing is written yet, and
        the slabs may hold anything. The matrices and tables are built as the lines of IS_ec_init say. */
    constructor (k: nat, m: nat, w: nat, count: nat, session: Session, states: seq<CbState>, memory: Memory)
      requires 1 <= k <= m <= 256 && w > 0 && count > 0 && |memory| == |states| && IsMemory(memory, |memory|, count * w)
      requires session.Valid() && |session.cbIndexMap| == m && |session.chunkMap| == |states|
      requires LiveServers(session.cbIndexMap, states)
      requires forall s | 0 <= s < m :: session.cbIndexMap[s] != NO_CB_MAPPED
      ensures Coherent() && fresh(encodeMatrix) && fresh(encodeTbls) && fresh(decodeMatrix) && fresh(invertMatrix) && fresh(decodeTbls)
      ensures this.k == k && this.m == m && this.w == w && pageSize == k * w && this.session == session
      ensures |pages| == count && written == {}
      ensures Now() == Outlook(session.cbIndexMap, session.chunkMapCbChunk, states, seq(m, _ => false))
    {
      hide HoldsTables, Survivors, CauchyMatrix, Rows, Settled, History, LiveServers, Split, IsMemory, Group, DecoderReady;
      hide Published, Addressed, Apart, Stored;
      var enc, tables := NewEncoder(k, m);
      SettledPublished(session.Now());
      PublishedApart(session.Now());
      this.k, this.m, this.w, this.session := k, m, w, session;
      pageSize, slabSize, slabBytes := k * w, count * w, count * (k * w);
      encodeMatrix, encodeTbls := enc, tables;
      var recoveryTables := new bv8[32 * ((m - k) * k)];
      decodeMatrix, invertMatrix, decodeTbls := new bv8[m, k], new bv8[k, k], recoveryTables;
      cbStateList, srcInErr, srcErrList, nsrcerrs, decodeIndex := states, seq(m, _ => false), [], 0, [];
      this.memory := memory;
      pages, written, decode, inverse := ZeroShards(count, k * w), {}, [], [];
      FreshDecoder(k, m, recoveryTables[..]);
      FreshStored(k, m, w, session.cbIndexMap, session.chunkMapCbChunk, memory, ZeroShards(count, k * w));
      assert Unmapped(session.cbIndexMap) == seq(m, _ => false);
    }

    /** IS_rdma_write of a run of pages, from page q on; `at` is the offset inside every chunk. */
    method Write(at: nat, data: Matrix, ghost q: nat)
      requires q + |data| <= |pages| && IsMatrix(data, |data|, pageSize) && at == q * w && Coherent()
      modifies this`memory, this`pages, this`written
      ensures Wrote(old(memory), at, data)
      ensures pages == Spliced(old(pages), data, q)
      ensures written == old(written) + Run(q, |data|)
      ensures Coherent()
    {
      hide Stored, DecoderReady, HoldsTables, LiveServers, Settled, History, Split, Codeword, CauchyMatrix, Survivors, Rows;
      hide IsMemory, Addressed, Group, Apart, Posted, Unmapped;
      var word := EncodePages(data, k, m, w, encodeTbls);
      memory, pages, written :=
        WriteGroup(k, m, w, session.cbIndexMap, session.chunkMapCbChunk, memory, slabSize, word, pages, written, at,
                   |data| * w, q, data, session.Now());
    }

    /** IS_rdma_read of `count` pages from page q on without faults, and client_read_done; `at` is the offset inside every
        chunk, and stale is what the buffers held before. The search for parities stays inside its list exactly when k
        shards are mapped; the pages are right exactly when nothing that the read needs is missing, see also StaleRead. */
    method Read(at: nat, count: nat, stale: Matrix, ghost q: nat) returns (inside: bool, result: Matrix)
      requires q + count <= |pages| && StripBuffers(stale, m, count, w) && at == q * w && Coherent()
      ensures inside <==> Recoverable()
      ensures inside ==> result == ReadOf(q, count, stale)
      ensures Readable(Now(), k) ==> Returns(q, count, result)
    {
      hide Stored, DecoderReady, HoldsTables, LiveServers, Settled, History, CauchyMatrix, Survivors, Rows, Unmapped;
      hide IsMemory, Addressed, Group, ReadResult, ReadsRight, Readable;
      ChunkRange(q, count, |pages|, w);
      DecoderShape(k, m, Decoding());
      ReadableIs(Now(), k, Decoding());
      inside, result := ReadGroup(k, m, w, session.cbIndexMap, session.chunkMapCbChunk, memory, slabSize, srcErrList, nsrcerrs,
                                  decodeIndex, decodeTbls, Decoding(), at, q, count, stale);
      if Readable(Now(), k) {
        ReadIsRight(k, m, w, session.cbIndexMap, Group(memory, session.cbIndexMap, session.chunkMapCbChunk, slabSize), pages,
                    written, Decoding(), q, count, stale);
      }
    }

    /** Where something that a read needs is missing, there are leftovers with which its first page comes back wrong. */
    lemma StaleRead(q: nat, count: nat) returns (stale: Matrix)
      requires q + count <= |pages| && count > 0 && Coherent() && Recoverable() && !Readable(Now(), k)
      ensures StripBuffers(stale, m, count, w) && ReadOf(q, count, stale)[0] != pages[q]
    {
      hide Stored, DecoderReady, HoldsTables, LiveServers, Settled, History, CauchyMatrix, Survivors, Rows, Unmapped;
      hide IsMemory, Addressed, Group, ReadResult, ReadsRight, Readable;
      ChunkRange(q, count, |pages|, w);
      DecoderShape(k, m, Decoding());
      ReadableIs(Now(), k, Decoding());
      stale := ReadIsWrong(k, m, w, session.cbIndexMap, Group(memory, session.cbIndexMap, session.chunkMapCbChunk, slabSize),
                           Decoding(), pages, q, count);
    }

    /** The unmapping of evict_handler: the error lists stay as they are. */
    method Evict(c: nat, stop: seq<bool>)
      requires Coherent() && c < |cbStateList| && |stop| == MAX_MR_SIZE_GB
      requires Named(session.chunkMap, c, stop)
      modifies session
      ensures Coherent() && |old(session.chunkMapCbChunk)| == |old(session.cbIndexMap)|
      ensures Now() == AfterEvict(old(Now()), c, stop)
      ensures |session.cbIndexMap| == |old(session.cbIndexMap)| && forall s | 0 <= s < |session.cbIndexMap| ::
                var slot := old(session.chunkMapCbChunk)[s];
                session.cbIndexMap[s] ==
                  if old(session.cbIndexMap)[s] == c && 0 <= slot < |stop| && stop[slot] then NO_CB_MAPPED
                  else old(session.cbIndexMap)[s]
    {
      hide Stored, DecoderReady, HoldsTables, Settled, History, CauchyMatrix, Survivors, Rows, Cut, IsMemory, Addressed, Group;
      ghost var v := session.Now();
      CutIsWithoutSlots(v, c, stop);
      RemappedStored(k, m, w, memory, v.cbIndexMap, v.chunkMapCbChunk, Cut(v, c, stop).cbIndexMap,
                     Cut(v, c, stop).chunkMapCbChunk, pages, written);
      var tagged := session.Evict(c, stop);
    }

    /** IS_disconnect_handler for server c, without requests in flight; `below` is the word before cb_state_list. The
        handler reads that word exactly when a shard that it scans is unmapped. */
    method Disconnect(c: nat, below: CbState) returns (inside: bool)
      requires Coherent() && c < |cbStateList|
      modifies this`cbStateList, this`srcInErr, this`srcErrList, this`nsrcerrs, this`decodeIndex, this`decode, this`inverse
      modifies session, decodeMatrix, invertMatrix, decodeTbls
      ensures Coherent()
      ensures |old(session.chunkMapCbChunk)| == |old(session.cbIndexMap)| == m
      ensures Now() == AfterDisconnect(old(Now()), c, k)
      ensures cbStateList == old(cbStateList)[c := Fail]
      ensures |session.cbIndexMap| == m && forall s | 0 <= s < m ::
                session.cbIndexMap[s] == if old(session.cbIndexMap)[s] == c then NO_CB_MAPPED else old(session.cbIndexMap)[s]
      ensures forall s | 0 <= s < m :: NO_CB_MAPPED <= old(session.cbIndexMap)[s] < |cbStateList|
      ensures inside <==> old(cbStateList[c]) == Connected || ScansMapped(old(session.cbIndexMap), cbStateList, k, m)
    {
      hide Stored, DecoderReady, HoldsTables, LiveServers, Settled, History, CauchyMatrix, Survivors, Rows, Cut, Failed, Lost;
      hide IsMemory, Addressed, Group, ScansMapped, Unmapped;
      ghost var v := session.Now();
      FailedIsUnmapped(v.cbIndexMap, cbStateList, c);
      AllSlotsOfServer(v, c);
      if cbStateList[c] == Connected {
        NothingOnServer(v.cbIndexMap, cbStateList, c);
        cbStateList := cbStateList[c := Fail];
        return true;
      }
      cbStateList := cbStateList[c := Fail];
      inside := RebuildDecoder(below);
      UnmapServer(c);
    }

    /** The error lists, the decode matrix and its tables are made anew, while the failed server's chunks are still in
        the tables. */
    method RebuildDecoder(below: CbState) returns (inside: bool)
      requires 1 <= k <= m <= 256 && Arrays() && Rows(encodeMatrix) == CauchyMatrix(m, k) && |session.cbIndexMap| == m
      requires forall s | 0 <= s < m :: NO_CB_MAPPED <= session.cbIndexMap[s] < |cbStateList|
      modifies this`srcInErr, this`srcErrList, this`nsrcerrs, this`decodeIndex, this`decode, this`inverse
      modifies decodeMatrix, invertMatrix, decodeTbls
      ensures DecoderReady(k, m, Decoding()) && |srcInErr| == m && forall i | 0 <= i < |decodeIndex| :: decodeIndex[i] < m
      ensures srcInErr == Scanned(Failed(session.cbIndexMap, cbStateList), m - k)
      ensures k <= |Survivors(Failed(session.cbIndexMap, cbStateList), m)| ==> srcInErr == Failed(session.cbIndexMap, cbStateList)
      ensures inside <==> ScansMapped(session.cbIndexMap, cbStateList, k, m)
    {
      hide DecoderReady, CauchyMatrix, Survivors, Rows, Failed, ScansMapped, Scanned;
      srcInErr, srcErrList, nsrcerrs, decodeIndex, inside, decode, inverse :=
        BuildDecoder(session.cbIndexMap, cbStateList, below, k, m, encodeMatrix, decodeMatrix, invertMatrix, decodeTbls);
    }

    /** The server's chunks leave the tables; the others keep their bytes. */
    method UnmapServer(c: nat)
      requires session.Valid() && c < |session.chunkMap| == |cbStateList| && |session.cbIndexMap| == m
      requires slabSize == |pages| * w && IsMatrix(pages, |pages|, k * w)
      requires |memory| == |cbStateList| && IsMemory(memory, |memory|, slabSize)
      requires Addressed(session.cbIndexMap, session.chunkMapCbChunk, |memory|)
      requires Stored(k, m, w, session.cbIndexMap, Group(memory, session.cbIndexMap, session.chunkMapCbChunk, slabSize), pages, written)
      modifies session
      ensures session.Valid() && |session.chunkMap| == |cbStateList|
      ensures session.cbIndexMap == WithoutServer(old(session.cbIndexMap), c)
      ensures |old(session.chunkMapCbChunk)| == |old(session.cbIndexMap)|
      ensures session.chunkMapCbChunk == SlotsLeft(old(session.cbIndexMap), old(session.chunkMapCbChunk), c, AllSlots())
      ensures Addressed(session.cbIndexMap, session.chunkMapCbChunk, |memory|)
      ensures Stored(k, m, w, session.cbIndexMap, Group(memory, session.cbIndexMap, session.chunkMapCbChunk, slabSize), pages, written)
    {
      hide Stored, Settled, History, Cut, IsMemory, Addressed, Group, Published;
      ghost var v := session.Now();
      CutIsWithoutSlots(v, c, AllSlots());
      AllSlotsOfServer(v, c);
      RemappedStored(k, m, w, memory, v.cbIndexMap, v.chunkMapCbChunk, Cut(v, c, AllSlots()).cbIndexMap,
                     Cut(v, c, AllSlots()).chunkMapCbChunk, pages, written);
      session.Unmap(c);
    }
  }

  /** No errors, and nothing to recover. */
  lemma FreshDecoder(k: nat, m: nat, tables: seq<bv8>)
    requires k <= m
    ensures DecoderReady(k, m, Decoder(seq(m, _ => false), [], 0, [], [], [], tables))
  {}

  /** Nothing is written yet, so there is nothing to hold. */
  lemma FreshStored(k: nat, m: nat, w: nat, cbIndex: seq<int>, slots: seq<int>, memory: Memory, pages: Matrix)
    requires |cbIndex| == m && IsMemory(memory, |memory|, |pages| * w) && Addressed(cbIndex, slots, |memory|)
    requires IsMatrix(pages, |pages|, k * w)
    ensures Stored(k, m, w, cbIndex, Group(memory, cbIndex, slots, |pages| * w), pages, {})
  {
    hide Group;
  }

  lemma SettledPublished(v: View)
    requires Settled(v)
    ensures Published(v)
  {}

  lemma DecoderShape(k: nat, m: nat, d: Decoder)
    requires DecoderReady(k, m, d) && forall i | 0 <= i < |d.decodeIndex| :: d.decodeIndex[i] < m
    ensures |d.inErr| == m && DecoderFits(d, m)
  {
    hide Survivors, Recovers, IsInverse, HoldsTables;
  }

  /** The condition of a read, in terms of what is known and what is mapped. */
  lemma ReadableIs(o: Outlook, k: nat, d: Decoder)
    requires k <= |o.cbIndex| == |o.inErr| && DecoderReady(k, |o.cbIndex|, d) && d.inErr == o.inErr
    requires forall i | 0 <= i < |d.decodeIndex| :: d.decodeIndex[i] < |o.cbIndex|
    ensures Readable(o, k) <==>
            k <= |Survivors(Unmapped(o.cbIndex), |o.cbIndex|)| && ReadsRight(k, Unmapped(o.cbIndex), d)
  {
    hide Survivors, Recovers, IsInverse, HoldsTables, RowChoice;
    var m, lost := |o.cbIndex|, Unmapped(o.cbIndex);
    ErrorFacts(d.inErr, d.errList, d.nsrcerrs, k, m);
    if d.nsrcerrs > 0 {
      FirstSurvivors(d.inErr, k, m);
      assert d.inErr[d.errList[0]] && d.errList[0] < k;
      assert forall i | 0 <= i < k :: d.decodeIndex[i] == Survivors(d.inErr, m)[i];
      assert ReadsRight(k, lost, d) <==> forall i | 0 <= i < k :: !lost[d.decodeIndex[i]];
    } else {
      assert forall i | 0 <= i < k :: !o.inErr[i];
      assert forall i | 0 <= i < k :: lost[i] <==> o.cbIndex[i] == NO_CB_MAPPED;
    }
  }

  lemma ChunkRange(q: nat, count: nat, c: nat, w: nat)
    requires q + count <= c
    ensures q * w + count * w <= c * w
  {
    ProductMonotone(q + count, c, w);
    assert (q + count) * w == q * w + count * w;
  }

  /** The range of every chunk that a request touches is the range of its pages. */
  lemma RequestRange(start: nat, count: nat, k: nat, w: nat, c: nat)
    requires k > 0 && w > 0 && k * w > 0 && start % (k * w) == 0 && start < c * (k * w) && start + count * (k * w) <= c * (k * w)
    ensures start / (k * w) + count <= c && start / (k * w) < c
    ensures ShardStart(start, c * (k * w), k) == start / (k * w) * w && count * (k * w) / k == count * w
    ensures start / (k * w) * w + count * w <= c * w
  {
    var page := k * w;
    assert c > 0;
    var q := PageNumber(start, page, c);
    DivUnique(start, c * page, 0, start);
    DivUnique(start, page, q, 0);
    DivideExactly(q, w, k);
    DivideExactly(count, w, k);
    RequestFits(start, count, k, w, c);
    assert (q + count) * page == q * page + count * page;
    ProductSign(q + count - c, page);
    assert (q + count - c) * page == (q + count) * page - c * page;
  }

  /** The posting half of a write, over the tables of the group. */
  method WriteGroup(k: nat, m: nat, w: nat, cbIndex: seq<int>, slots: seq<int>, memory: Memory, size: nat, word: Matrix,
                    ghost pages: Matrix, ghost written: set<nat>, at: nat, len: nat, ghost q: nat, ghost data: Matrix,
                    ghost v: View)
    returns (memory': Memory, ghost pages': Matrix, ghost written': set<nat>)
    requires k <= m == |cbIndex| && w > 0 && IsMatrix(pages, |pages|, k * w) && IsMatrix(data, |data|, k * w)
    requires q + |data| <= |pages| && Settled(v) && v.cbIndexMap == cbIndex && v.chunkMapCbChunk == slots
    requires |memory| == |v.chunkMap| && size == |pages| * w && IsMemory(memory, |memory|, size)
    requires Addressed(cbIndex, slots, |memory|) && Stored(k, m, w, cbIndex, Group(memory, cbIndex, slots, size), pages, written)
    requires word == Codeword(m, k, Split(data, k, w), |data| * w) && at == q * w && len == |data| * w
    ensures |memory'| == |memory| && IsMemory(memory', |memory'|, size)
    ensures pages' == Spliced(pages, data, q) && written' == written + Run(q, |data|)
    ensures IsMatrix(pages', |pages|, k * w)
    ensures Stored(k, m, w, cbIndex, Group(memory', cbIndex, slots, size), pages', written')
    ensures at + len <= size && Posted(memory, memory', cbIndex, slots, word, m, at, len, size)
  {
    hide Stored, Settled, Published, Split, Codeword, IsMemory, Addressed, Group, Apart, Posted;
    ProductMonotone(q + |data|, |pages|, w);
    assert (q + |data|) * w == q * w + |data| * w;
    SettledPublished(v);
    PublishedApart(v);
    pages', written' := Spliced(pages, data, q), written + Run(q, |data|);
    memory' := PostWrites(memory, cbIndex, slots, word, k, at, len, size);
    PostedGroup(memory, memory', cbIndex, slots, word, at, len, size);
    WriteKeepsStored(k, m, w, cbIndex, Group(memory, cbIndex, slots, size), Group(memory', cbIndex, slots, size),
                     pages, data, q, written, written');
  }

  lemma NothingOnServer(cbIndex: seq<int>, states: seq<CbState>, c: nat)
    requires LiveServers(cbIndex, states) && c < |states| && states[c] == Connected
    ensures WithoutServer(cbIndex, c) == cbIndex
  {}

  // ---------- A read after an eviction ----------

  lemma {:induction false} OneLost(cbIndex: seq<int>, i: nat, n: nat)
    requires i < |cbIndex| && n <= |cbIndex| && forall s | 0 <= s < |cbIndex| && s != i :: cbIndex[s] != NO_CB_MAPPED
    requires cbIndex[i] == NO_CB_MAPPED
    ensures |Lost(Unmapped(cbIndex), n)| == if i < n then 1 else 0
  {
    if n == 0 {
    } else {
      OneLost(cbIndex, i, n - 1);
      LostStep(Unmapped(cbIndex), n - 1);
    }
  }

  /** With a data shard gone from an otherwise complete group, and no error known, k shards are left to fetch, but a read
      is not right. */
  lemma EvictedDataShard(o: Outlook, k: nat, i: nat)
    requires i < k < |o.cbIndex| == |o.inErr| && forall s | 0 <= s < |o.inErr| :: !o.inErr[s]
    requires forall s | 0 <= s < |o.cbIndex| :: o.cbIndex[s] == NO_CB_MAPPED <==> s == i
    ensures k <= |Survivors(Unmapped(o.cbIndex), |o.cbIndex|)| && !Readable(o, k)
  {
    OneLost(o.cbIndex, i, |o.cbIndex|);
    LostAndSurvivors(Unmapped(o.cbIndex), |o.cbIndex|);
    hide Survivors;
  }

  /** The slot of data shard i is evicted from a complete group. A read still finds k shards to fetch, but it does not
      recover shard i: with these leftovers in its buffers its first page comes back wrong. */
  method EvictDataShard(dev: Device, i: nat, q: nat, count: nat) returns (ghost stale: Matrix)
    requires q + count <= |dev.pages| && count > 0 && i < dev.k < dev.m && dev.Coherent()
    requires forall s | 0 <= s < |dev.session.cbIndexMap| :: dev.session.cbIndexMap[s] != NO_CB_MAPPED
    requires forall s | 0 <= s < |dev.srcInErr| :: !dev.srcInErr[s]
    modifies dev.session
    ensures dev.pages == old(dev.pages) && dev.written == old(dev.written)
    ensures StripBuffers(stale, dev.m, count, dev.w) && dev.Coherent() && dev.Recoverable()
    ensures dev.ReadOf(q, count, stale)[0] != dev.pages[q]
  {
    hide Stored, DecoderReady, HoldsTables, History, CauchyMatrix, Survivors, Rows, IsMemory, Group, Readable, Unmapped;
    hide Settled, LiveServers, Published, Apart;
    ghost var before := dev.Now();
    SettledPublished(dev.session.Now());
    PublishedApart(dev.session.Now());
    var c, slot := dev.session.cbIndexMap[i], dev.session.chunkMapCbChunk[i];
    var marks := seq(MAX_MR_SIZE_GB, h => h == slot);
    SlotInUse(dev.session.Now(), i, marks);
    dev.Evict(c, marks);
    OneEvicted(before, c, slot, marks, i);
    EvictedDataShard(dev.Now(), dev.k, i);
    stale := dev.StaleRead(q, count);
  }

  lemma SlotInUse(v: View, i: nat, marks: seq<bool>)
    requires Settled(v) && i < |v.cbIndexMap| == |v.chunkMapCbChunk| && v.cbIndexMap[i] != NO_CB_MAPPED
    requires |marks| == MAX_MR_SIZE_GB && forall h | 0 <= h < |marks| :: marks[h] == (h == v.chunkMapCbChunk[i])
    ensures 0 <= v.cbIndexMap[i] < |v.chunkMap| && 0 <= v.chunkMapCbChunk[i] < MAX_MR_SIZE_GB
    ensures Named(v.chunkMap, v.cbIndexMap[i], marks)
  {}

  lemma OneEvicted(o: Outlook, c: nat, slot: nat, marks: seq<bool>, i: nat)
    requires |o.slots| == |o.cbIndex| && Apart(o.cbIndex, o.slots) && i < |o.cbIndex| && o.cbIndex[i] == c && o.slots[i] == slot
    requires slot < |marks| && forall h | 0 <= h < |marks| :: marks[h] == (h == slot)
    requires forall s | 0 <= s < |o.cbIndex| :: o.cbIndex[s] != NO_CB_MAPPED
    ensures forall s | 0 <= s < |o.cbIndex| :: AfterEvict(o, c, marks).cbIndex[s] == NO_CB_MAPPED <==> s == i
  {}
}
