/** The mapping tables that tie session chunks to slots of servers, and the order in which they are stored. */
module SlabMap {
  const NO_CB_MAPPED := -1
  const MAX_MR_SIZE_GB := 32

  /** The state of a server's control block, in ascending order. */
  datatype CbState = Idle | Connected | Mapped | Evicting | Fail

  /** The four tables at one moment; chunkMap holds one row of slots for each server. */
  datatype View = View(cbIndexMap: seq<int>, chunkMapCbChunk: seq<int>, chunkMap: seq<seq<int>>, freeChunkIndex: int)

  ghost predicate Shaped(v: View) {
    && |v.chunkMapCbChunk| == |v.cbIndexMap|
    && (forall c | 0 <= c < |v.chunkMap| :: |v.chunkMap[c]| == MAX_MR_SIZE_GB)
    && forall s | 0 <= s < |v.cbIndexMap| :: NO_CB_MAPPED <= v.cbIndexMap[s] < |v.chunkMap|
  }

  /** What a reader that follows cb_index_map relies on at every moment. */
  ghost predicate Published(v: View) {
    && Shaped(v)
    && forall s | 0 <= s < |v.cbIndexMap| && v.cbIndexMap[s] != NO_CB_MAPPED ::
         && 0 <= v.chunkMapCbChunk[s] < MAX_MR_SIZE_GB
         && v.chunkMap[v.cbIndexMap[s]][v.chunkMapCbChunk[s]] == s
  }

  /** How many session chunks have no slot. */
  function FreeChunks(slots: seq<int>): (n: nat) {
    if slots == [] then 0 else FreeChunks(slots[..|slots| - 1]) + if slots[|slots| - 1] == -1 then 1 else 0
  }

  /** What holds between operations. */
  ghost predicate Settled(v: View) {
    && Published(v)
    && (forall c, i | 0 <= c < |v.chunkMap| && 0 <= i < MAX_MR_SIZE_GB && v.chunkMap[c][i] != -1 ::
          && 0 <= v.chunkMap[c][i] < |v.cbIndexMap|
          && v.cbIndexMap[v.chunkMap[c][i]] == c && v.chunkMapCbChunk[v.chunkMap[c][i]] == i)
    && (forall s | 0 <= s < |v.cbIndexMap| && v.cbIndexMap[s] == NO_CB_MAPPED :: v.chunkMapCbChunk[s] == -1)
    && v.freeChunkIndex + 1 == FreeChunks(v.chunkMapCbChunk)
  }

  /** One store into one of the tables. */
  datatype Store =
    | Index(chunk: nat, toServer: int)
    | Slot(chunk: nat, toSlot: int)
    | Chunk(server: nat, slot: nat, toChunk: int)
    | Free(n: int)

  ghost predicate Fits(v: View, store: Store) {
    match store
    case Index(s, _) => s < |v.cbIndexMap|
    case Slot(s, _) => s < |v.chunkMapCbChunk|
    case Chunk(c, i, _) => c < |v.chunkMap| && i < |v.chunkMap[c]|
    case Free(_) => true
  }

  ghost function After(v: View, store: Store): View
    requires Fits(v, store)
  {
    match store
    case Index(s, c) => v.(cbIndexMap := v.cbIndexMap[s := c])
    case Slot(s, i) => v.(chunkMapCbChunk := v.chunkMapCbChunk[s := i])
    case Chunk(c, i, s) => v.(chunkMap := v.chunkMap[c := v.chunkMap[c][i := s]])
    case Free(n) => v.(freeChunkIndex := n)
  }

  ghost predicate OneStore(a: View, b: View) {
    exists store: Store {:trigger Fits(a, store)} :: Fits(a, store) && b == After(a, store)
  }

  /** Moments that follow one another by single stores, none of which breaks what readers rely on. */
  ghost predicate History(history: seq<View>) {
    && (forall t | 0 <= t < |history| :: Published(history[t]))
    && forall t | 0 < t < |history| :: OneStore(history[t - 1], history[t])
  }

  lemma {:induction false} FreeAfterStore(slots: seq<int>, s: nat, i: int)
    requires s < |slots|
    ensures FreeChunks(slots[s := i]) ==
              FreeChunks(slots) - (if slots[s] == -1 then 1 else 0) + if i == -1 then 1 else 0
  {
    var n := |slots| - 1;
    if s < n {
      FreeAfterStore(slots[..n], s, i);
      assert slots[s := i][..n] == slots[..n][s := i];
    } else {
      assert slots[s := i][..n] == slots[..n];
    }
  }

  lemma Extend(history: seq<View>, v: View, store: Store)
    requires history != [] && History(history) && Published(v)
    requires Fits(history[|history| - 1], store) && v == After(history[|history| - 1], store)
    ensures History(history + [v])
  {
    assert OneStore(history[|history| - 1], v);
    hide Published, OneStore;
  }

  lemma {:induction false} FreeIsCardinality(slots: seq<int>)
    ensures FreeChunks(slots) == |set s | 0 <= s < |slots| && slots[s] == -1|
  {
    if slots == [] {
    } else {
      var n := |slots| - 1;
      FreeIsCardinality(slots[..n]);
      var before := set s | 0 <= s < |slots[..n]| && slots[..n][s] == -1;
      var all := set s | 0 <= s < |slots| && slots[s] == -1;
      if slots[n] == -1 {
        assert all == before + {n};
      } else {
        assert all == before;
      }
    }
  }

  /** Between operations free_chunk_index is one less than the number of session chunks that no server holds. */
  lemma FreeCountsUnmapped(v: View)
    requires Settled(v)
    ensures v.freeChunkIndex + 1 == |set s | 0 <= s < |v.cbIndexMap| && v.cbIndexMap[s] == NO_CB_MAPPED|
  {
    FreeIsCardinality(v.chunkMapCbChunk);
    assert (set s | 0 <= s < |v.cbIndexMap| && v.cbIndexMap[s] == NO_CB_MAPPED)
        == set s | 0 <= s < |v.chunkMapCbChunk| && v.chunkMapCbChunk[s] == -1;
  }

  // ---------- Taking slots away from a server ----------

  /** Session chunk s sits in one of the first n slots of server c, and that slot is to go. */
  ghost predicate Goes(v: View, c: nat, gone: seq<bool>, n: nat, s: nat)
    requires Settled(v) && |gone| == MAX_MR_SIZE_GB && s < |v.cbIndexMap|
  {
    v.cbIndexMap[s] != NO_CB_MAPPED && v.cbIndexMap[s] == c && v.chunkMapCbChunk[s] < n && gone[v.chunkMapCbChunk[s]]
  }

  ghost function Indices(v: View, c: nat, gone: seq<bool>, n: nat): (r: seq<int>)
    requires Settled(v) && |gone| == MAX_MR_SIZE_GB
    ensures |r| == |v.cbIndexMap|
  {
    seq(|v.cbIndexMap|, s requires 0 <= s < |v.cbIndexMap| =>
        if Goes(v, c, gone, n, s) then NO_CB_MAPPED else v.cbIndexMap[s])
  }

  ghost function Slots(v: View, c: nat, gone: seq<bool>, n: nat): (r: seq<int>)
    requires Settled(v) && |gone| == MAX_MR_SIZE_GB
    ensures |r| == |v.cbIndexMap|
  {
    seq(|v.cbIndexMap|, s requires 0 <= s < |v.cbIndexMap| =>
        if Goes(v, c, gone, n, s) then -1 else v.chunkMapCbChunk[s])
  }

  ghost function Chunks(v: View, c: nat, gone: seq<bool>, n: nat): (r: seq<seq<int>>)
    requires Settled(v) && |gone| == MAX_MR_SIZE_GB && c < |v.chunkMap|
    ensures |r| == |v.chunkMap| && |r[c]| == MAX_MR_SIZE_GB
  {
    v.chunkMap[c := seq(MAX_MR_SIZE_GB, i requires 0 <= i < MAX_MR_SIZE_GB =>
                        if i < n && gone[i] then -1 else v.chunkMap[c][i])]
  }

  /** The tables after server c has lost the marked slots. */
  ghost function Cut(v: View, c: nat, gone: seq<bool>): (v': View)
    requires Settled(v) && c < |v.chunkMap| && |gone| == MAX_MR_SIZE_GB
  {
    var slots := Slots(v, c, gone, MAX_MR_SIZE_GB);
    View(Indices(v, c, gone, MAX_MR_SIZE_GB), slots, Chunks(v, c, gone, MAX_MR_SIZE_GB), FreeChunks(slots) - 1)
  }

  function AllSlots(): (all: seq<bool>)
    ensures |all| == MAX_MR_SIZE_GB && forall i | 0 <= i < MAX_MR_SIZE_GB :: all[i]
  {
    seq(MAX_MR_SIZE_GB, _ => true)
  }

  lemma CutSettled(v: View, c: nat, gone: seq<bool>)
    requires Settled(v) && c < |v.chunkMap| && |gone| == MAX_MR_SIZE_GB
    ensures Settled(Cut(v, c, gone))
  {}

  /** Readers are safe while index entries go before the other tables' entries. */
  lemma CutPublished(v: View, c: nat, gone: seq<bool>, n: nat, slots: seq<int>, n': nat, free: int)
    requires Settled(v) && c < |v.chunkMap| && |gone| == MAX_MR_SIZE_GB && n' <= n
    requires |slots| == |v.cbIndexMap|
    requires forall s | 0 <= s < |slots| && !Goes(v, c, gone, n, s) :: slots[s] == v.chunkMapCbChunk[s]
    ensures Published(View(Indices(v, c, gone, n), slots, Chunks(v, c, gone, n'), free))
  {}

  lemma CutNothing(v: View, c: nat, gone: seq<bool>)
    requires Settled(v) && c < |v.chunkMap| && |gone| == MAX_MR_SIZE_GB
    ensures Indices(v, c, gone, 0) == v.cbIndexMap && Slots(v, c, gone, 0) == v.chunkMapCbChunk
    ensures Chunks(v, c, gone, 0) == v.chunkMap
    ensures |v.chunkMapCbChunk| == |v.cbIndexMap| && v.freeChunkIndex == FreeChunks(v.chunkMapCbChunk) - 1
  {
    assert Chunks(v, c, gone, 0)[c] == v.chunkMap[c];
  }

  lemma GoesStep(v: View, c: nat, gone: seq<bool>, i: nat, s: nat)
    requires Settled(v) && c < |v.chunkMap| && |gone| == MAX_MR_SIZE_GB && i < MAX_MR_SIZE_GB && s < |v.cbIndexMap|
    ensures Goes(v, c, gone, i + 1, s) == (Goes(v, c, gone, i, s) || (gone[i] && v.chunkMap[c][i] == s))
    ensures v.chunkMap[c][i] == s ==> !Goes(v, c, gone, i, s)
  {}

  lemma SlotTarget(v: View, c: nat, i: nat)
    requires Settled(v) && c < |v.chunkMap| && i < MAX_MR_SIZE_GB
    ensures v.chunkMap[c][i] != -1 ==>
              0 <= v.chunkMap[c][i] < |v.cbIndexMap| && v.chunkMapCbChunk[v.chunkMap[c][i]] == i
  {}

  /** What the next slot adds. */
  lemma CutStep(v: View, c: nat, gone: seq<bool>, i: nat)
    requires Settled(v) && c < |v.chunkMap| && |gone| == MAX_MR_SIZE_GB && i < MAX_MR_SIZE_GB
    ensures |v.chunkMap[c]| == MAX_MR_SIZE_GB && Chunks(v, c, gone, i)[c][i] == v.chunkMap[c][i]
    ensures v.chunkMap[c][i] == -1 || !gone[i] ==>
              Indices(v, c, gone, i + 1) == Indices(v, c, gone, i) && Slots(v, c, gone, i + 1) == Slots(v, c, gone, i)
              && Chunks(v, c, gone, i + 1) == Chunks(v, c, gone, i)
    ensures v.chunkMap[c][i] != -1 && gone[i] ==>
              && 0 <= v.chunkMap[c][i] < |v.cbIndexMap| && v.chunkMapCbChunk[v.chunkMap[c][i]] == i
              && Slots(v, c, gone, i)[v.chunkMap[c][i]] == i
              && Indices(v, c, gone, i + 1) == Indices(v, c, gone, i)[v.chunkMap[c][i] := NO_CB_MAPPED]
              && Slots(v, c, gone, i + 1) == Slots(v, c, gone, i)[v.chunkMap[c][i] := -1]
              && Chunks(v, c, gone, i + 1) == Chunks(v, c, gone, i)[c := Chunks(v, c, gone, i)[c][i := -1]]
  {
    CutNothing(v, c, gone);
    SlotTarget(v, c, i);
    forall s | 0 <= s < |v.cbIndexMap|
      ensures Goes(v, c, gone, i + 1, s) == (Goes(v, c, gone, i, s) || (gone[i] && v.chunkMap[c][i] == s))
      ensures v.chunkMap[c][i] == s ==> !Goes(v, c, gone, i, s)
    {
      GoesStep(v, c, gone, i, s);
    }
    SizedChunks(v, c);
    hide Settled, Goes;
    if v.chunkMap[c][i] == -1 || !gone[i] {
      assert Chunks(v, c, gone, i + 1)[c] == Chunks(v, c, gone, i)[c];
    } else {
      assert Chunks(v, c, gone, i + 1)[c] == Chunks(v, c, gone, i)[c][i := -1];
    }
  }

  lemma SizedChunks(v: View, c: nat)
    requires Settled(v) && c < |v.chunkMap|
    ensures |v.chunkMap[c]| == MAX_MR_SIZE_GB
  {}

  /** Publishing a chunk: the moments before the index entry is stored. */
  lemma MapSteps(v: View, c: nat, i: nat, s: nat)
    requires Settled(v) && c < |v.chunkMap| && i < MAX_MR_SIZE_GB && s < |v.cbIndexMap| && |v.chunkMap[c]| == MAX_MR_SIZE_GB
    requires v.cbIndexMap[s] == NO_CB_MAPPED && v.chunkMap[c][i] == -1
    ensures Published(v.(freeChunkIndex := v.freeChunkIndex - 1))
    ensures |v.chunkMapCbChunk| == |v.cbIndexMap|
    ensures Published(View(v.cbIndexMap, v.chunkMapCbChunk[s := i], v.chunkMap, v.freeChunkIndex - 1))
    ensures Published(View(v.cbIndexMap, v.chunkMapCbChunk[s := i], v.chunkMap[c := v.chunkMap[c][i := s]],
                           v.freeChunkIndex - 1))
  {}

  /** Publishing a chunk: the index entry is stored last. */
  lemma MapSettled(v: View, c: nat, i: nat, s: nat)
    requires Settled(v) && c < |v.chunkMap| && i < MAX_MR_SIZE_GB && s < |v.cbIndexMap|
    requires v.cbIndexMap[s] == NO_CB_MAPPED && |v.chunkMap[c]| == MAX_MR_SIZE_GB && v.chunkMap[c][i] == -1
    ensures |v.chunkMapCbChunk| == |v.cbIndexMap|
    ensures var v' := After(View(v.cbIndexMap, v.chunkMapCbChunk[s := i], v.chunkMap[c := v.chunkMap[c][i := s]],
                                 v.freeChunkIndex - 1), Index(s, c)); Published(v') && Settled(v')
  {
    FreeAfterStore(v.chunkMapCbChunk, s, i);
    hide FreeChunks;
  }

  /** The new entries of a chunk that is published in a slot. */
  function AfterMapping(v: View, c: nat, i: nat, s: nat): View
    requires c < |v.chunkMap| && i < |v.chunkMap[c]| && s < |v.cbIndexMap| == |v.chunkMapCbChunk|
  {
    View(v.cbIndexMap[s := c], v.chunkMapCbChunk[s := i], v.chunkMap[c := v.chunkMap[c][i := s]], v.freeChunkIndex - 1)
  }

  /** Readers stay safe exactly when the slot is free: an answer that names a slot in use would cut off its chunk. */
  lemma MapNeedsFreeSlot(v: View, c: nat, i: nat, s: nat)
    requires Settled(v) && c < |v.chunkMap| && i < |v.chunkMap[c]| && s < |v.cbIndexMap| == |v.chunkMapCbChunk|
    requires v.cbIndexMap[s] == NO_CB_MAPPED
    ensures Published(AfterMapping(v, c, i, s)) <==> v.chunkMap[c][i] == -1
  {
    SizedChunks(v, c);
    var before := v.chunkMap[c][i];
    if before == -1 {
      MapSettled(v, c, i, s);
    } else {
      SlotTarget(v, c, i);
      SlotOwner(v, c, i);
      assert AfterMapping(v, c, i, s).cbIndexMap[before] == c;
    }
  }

  lemma SlotOwner(v: View, c: nat, i: nat)
    requires Settled(v) && c < |v.chunkMap| && i < MAX_MR_SIZE_GB && v.chunkMap[c][i] != -1
    ensures 0 <= v.chunkMap[c][i] < |v.cbIndexMap| && v.cbIndexMap[v.chunkMap[c][i]] == c
  {}

  /** A STOP message marks only slots that are in use on this side. */
  predicate Named(chunkMap: seq<seq<int>>, c: nat, stop: seq<bool>)
    requires c < |chunkMap|
  {
    forall i | 0 <= i < |stop| && stop[i] :: i < |chunkMap[c]| && chunkMap[c][i] != -1
  }

  class Session {
    var cbIndexMap: seq<int>
    var chunkMapCbChunk: seq<int>
    var chunkMap: seq<seq<int>>
    var freeChunkIndex: int
    /** Every moment since the start. */
    ghost var history: seq<View>

    ghost function Now(): View
      reads this
    {
      View(cbIndexMap, chunkMapCbChunk, chunkMap, freeChunkIndex)
    }

    /** The history ends now and never broke what readers rely on. */
    ghost predicate Recorded()
      reads this
    {
      history != [] && history[|history| - 1] == Now() && History(history)
    }

    ghost predicate Valid()
      reads this
    {
      Recorded() && Settled(Now())
    }

    constructor (chunks: nat, servers: nat)
      ensures Valid() && fresh(this)
      ensures |cbIndexMap| == chunks && |chunkMap| == servers
      ensures forall c | 0 <= c < servers :: chunkMap[c] == seq(MAX_MR_SIZE_GB, _ => -1)
      ensures forall s | 0 <= s < chunks :: cbIndexMap[s] == NO_CB_MAPPED
    {
      cbIndexMap := seq(chunks, _ => NO_CB_MAPPED);
      chunkMapCbChunk := seq(chunks, _ => -1);
      chunkMap := seq(servers, _ => seq(MAX_MR_SIZE_GB, _ => -1));
      freeChunkIndex := chunks - 1;
      history := [View(seq(chunks, _ => NO_CB_MAPPED), seq(chunks, _ => -1),
                       seq(servers, _ => seq(MAX_MR_SIZE_GB, _ => -1)), chunks - 1)];
      new;
      AllFree(chunks);
    }

    /** Carries out one store. */
    method Do(store: Store)
      requires Recorded() && Fits(Now(), store) && Published(After(Now(), store))
      modifies this
      ensures Recorded() && Now() == After(old(Now()), store)
      ensures old(history) <= history
    {
      hide Published, History;
      ghost var v := Now();
      match store {
        case Index(s, c) => cbIndexMap := cbIndexMap[s := c];
        case Slot(s, i) => chunkMapCbChunk := chunkMapCbChunk[s := i];
        case Chunk(c, i, s) => chunkMap := chunkMap[c := chunkMap[c][i := s]];
        case Free(n) => freeChunkIndex := n;
      }
      assert Now() == After(v, store);
      Extend(history, Now(), store);
      history := history + [Now()];
    }

    /** IS_single_chunk_init: takes the first slot that the server's answer names, and publishes it last. */
    method SingleChunkInit(c: nat, rkey: seq<bool>, selectChunk: nat) returns (slot: int)
      requires Valid() && c < |chunkMap| && |rkey| == MAX_MR_SIZE_GB
      requires selectChunk < |cbIndexMap| && cbIndexMap[selectChunk] == NO_CB_MAPPED
      requires forall i | 0 <= i < MAX_MR_SIZE_GB && rkey[i] :: chunkMap[c][i] == -1
      modifies this
      ensures Valid() && old(history) <= history
      ensures slot == -1 <==> forall i | 0 <= i < MAX_MR_SIZE_GB :: !rkey[i]
      ensures slot == -1 ==> Now() == old(Now())
      ensures slot != -1 ==> 0 <= slot < MAX_MR_SIZE_GB && rkey[slot] && forall i | 0 <= i < slot :: !rkey[i]
      ensures slot != -1 ==> Now() == View(old(cbIndexMap)[selectChunk := c], old(chunkMapCbChunk)[selectChunk := slot],
                                           old(chunkMap)[c := old(chunkMap)[c][slot := selectChunk]],
                                           old(freeChunkIndex) - 1)
    {
      hide Published, Settled, History;
      for i := 0 to MAX_MR_SIZE_GB
        invariant Now() == old(Now()) && history == old(history)
        invariant forall h | 0 <= h < i :: !rkey[h]
      {
        if rkey[i] {
          SizedChunks(Now(), c);
          MapSteps(Now(), c, i, selectChunk);
          MapSettled(Now(), c, i, selectChunk);
          Do(Free(freeChunkIndex - 1));
          Do(Slot(selectChunk, i));
          Do(Chunk(c, i, selectChunk));
          Do(Index(selectChunk, c));
          return i;
        }
      }
      return -1;
    }

    /** First loop of IS_disconnect_handler: no more requests to the server's chunks. */
    method RetractAll(c: nat)
      requires Valid() && c < |chunkMap|
      modifies this
      ensures Recorded() && old(history) <= history
      ensures Now() == old(Now()).(cbIndexMap := Cut(old(Now()), c, AllSlots()).cbIndexMap)
    {
      hide Published, Settled, History, Indices, Slots, Chunks, Goes, FreeChunks;
      ghost var v, all := Now(), AllSlots();
      CutNothing(v, c, all);
      for i := 0 to MAX_MR_SIZE_GB
        invariant Recorded() && old(history) <= history
        invariant Now() == v.(cbIndexMap := Indices(v, c, all, i))
      {
        var s := chunkMap[c][i];
        CutStep(v, c, all, i);
        if s != -1 {
          CutPublished(v, c, all, i + 1, v.chunkMapCbChunk, 0, v.freeChunkIndex);
          Do(Index(s, NO_CB_MAPPED));
        }
      }
    }

    /** Second loop of IS_disconnect_handler: the chunks become free again. */
    method ReleaseAll(c: nat, ghost v: View)
      requires Recorded() && Settled(v) && c < |v.chunkMap|
      requires Now() == v.(cbIndexMap := Cut(v, c, AllSlots()).cbIndexMap)
      modifies this
      ensures Valid() && old(history) <= history
      ensures Now() == Cut(v, c, AllSlots())
    {
      hide Published, Settled, History, Indices, Slots, Chunks, Goes, FreeChunks;
      ghost var all := AllSlots();
      ghost var indices := Cut(v, c, all).cbIndexMap;
      CutNothing(v, c, all);
      for i := 0 to MAX_MR_SIZE_GB
        invariant Recorded() && old(history) <= history
        invariant Now() == View(indices, Slots(v, c, all, i), Chunks(v, c, all, i), FreeChunks(Slots(v, c, all, i)) - 1)
      {
        var s := chunkMap[c][i];
        CutStep(v, c, all, i);
        if s != -1 {
          FreeAfterStore(chunkMapCbChunk, s, -1);
          SlotsGo(v, c, all, i + 1);
          CutPublished(v, c, all, MAX_MR_SIZE_GB, Slots(v, c, all, i + 1), i, freeChunkIndex);
          Do(Slot(s, -1));
          CutPublished(v, c, all, MAX_MR_SIZE_GB, Slots(v, c, all, i + 1), i, freeChunkIndex + 1);
          Do(Free(freeChunkIndex + 1));
          CutPublished(v, c, all, MAX_MR_SIZE_GB, Slots(v, c, all, i + 1), i + 1, freeChunkIndex);
          Do(Chunk(c, i, -1));
        }
      }
      CutSettled(v, c, all);
    }

    /** What IS_disconnect_handler does to the tables when no request is in flight. */
    method Unmap(c: nat)
      requires Valid() && c < |chunkMap|
      modifies this
      ensures Valid() && old(history) <= history
      ensures Now() == Cut(old(Now()), c, AllSlots())
    {
      ghost var v := Now();
      hide Published, Settled, History, Cut;
      RetractAll(c);
      ReleaseAll(c, v);
    }

    /** The unmapping stores of evict_handler for the slots that a STOP message marks. */
    method Evict(c: nat, stop: seq<bool>) returns (tagged: seq<bool>)
      requires Valid() && c < |chunkMap| && |stop| == MAX_MR_SIZE_GB
      requires Named(chunkMap, c, stop)
      modifies this
      ensures Valid() && old(history) <= history
      ensures Now() == Cut(old(Now()), c, stop) && tagged == stop
    {
      ghost var v := Now();
      var evictList;
      evictList, tagged := RetractStopped(c, stop);
      ReleaseEvicted(c, stop, evictList, v);
    }

    method RetractStopped(c: nat, stop: seq<bool>) returns (evictList: seq<bool>, tagged: seq<bool>)
      requires Valid() && c < |chunkMap| && |stop| == MAX_MR_SIZE_GB
      requires forall i | 0 <= i < MAX_MR_SIZE_GB && stop[i] :: chunkMap[c][i] != -1
      modifies this
      ensures Recorded() && old(history) <= history && tagged == stop && |evictList| == |old(cbIndexMap)|
      ensures Now() == old(Now()).(cbIndexMap := Cut(old(Now()), c, stop).cbIndexMap, chunkMap := Cut(old(Now()), c, stop).chunkMap)
      ensures forall s | 0 <= s < |evictList| :: evictList[s] == Goes(old(Now()), c, stop, MAX_MR_SIZE_GB, s)
    {
      hide Published, Settled, History, Indices, Slots, Chunks, Goes, FreeChunks;
      ghost var v := Now();
      CutNothing(v, c, stop);
      evictList := seq(|cbIndexMap|, _ => false);
      tagged := [];
      NothingGoes(v, c, stop);
      for i := 0 to MAX_MR_SIZE_GB
        invariant Recorded() && old(history) <= history && tagged == stop[..i]
        invariant Now() == v.(cbIndexMap := Indices(v, c, stop, i), chunkMap := Chunks(v, c, stop, i))
        invariant |evictList| == |v.cbIndexMap| && forall s | 0 <= s < |evictList| :: evictList[s] == Goes(v, c, stop, i, s)
      {
        CutStep(v, c, stop, i);
        if stop[i] {
          var s := chunkMap[c][i];
          CutPublished(v, c, stop, i + 1, v.chunkMapCbChunk, i, v.freeChunkIndex);
          Do(Index(s, NO_CB_MAPPED));
          evictList := evictList[s := true];
          CutPublished(v, c, stop, i + 1, v.chunkMapCbChunk, i + 1, v.freeChunkIndex);
          Do(Chunk(c, i, -1));
        }
        tagged := tagged + [stop[i]];
        forall s | 0 <= s < |evictList| ensures evictList[s] == Goes(v, c, stop, i + 1, s) {
          GoesStep(v, c, stop, i, s);
        }
      }
    }

    method ReleaseEvicted(c: nat, stop: seq<bool>, evictList: seq<bool>, ghost v: View)
      requires Recorded() && Settled(v) && c < |v.chunkMap| && |stop| == MAX_MR_SIZE_GB && |evictList| == |v.cbIndexMap|
      requires forall s | 0 <= s < |evictList| :: evictList[s] == Goes(v, c, stop, MAX_MR_SIZE_GB, s)
      requires Now() == v.(cbIndexMap := Cut(v, c, stop).cbIndexMap, chunkMap := Cut(v, c, stop).chunkMap)
      modifies this
      ensures Valid() && old(history) <= history && Now() == Cut(v, c, stop)
    {
      hide Published, Settled, History, Indices, Slots, Chunks, Goes, GivenUp, FreeChunks;
      ghost var cut := Cut(v, c, stop);
      CutNothing(v, c, stop);
      GivenUpSlots(v, c, stop, evictList, 0);
      for s := 0 to |cbIndexMap|
        invariant Recorded() && old(history) <= history
        invariant chunkMapCbChunk == GivenUp(v.chunkMapCbChunk, evictList, s)
        invariant Now() == View(cut.cbIndexMap, chunkMapCbChunk, cut.chunkMap, FreeChunks(chunkMapCbChunk) - 1)
      {
        GiveUpStep(v.chunkMapCbChunk, evictList, s);
        if evictList[s] {
          ghost var slots := GivenUp(v.chunkMapCbChunk, evictList, s + 1);
          FreeAfterStore(chunkMapCbChunk, s, -1);
          GoesWasMapped(v, c, stop, s);
          GivenUpSlots(v, c, stop, evictList, s + 1);
          CutPublished(v, c, stop, MAX_MR_SIZE_GB, slots, MAX_MR_SIZE_GB, freeChunkIndex);
          CutPublished(v, c, stop, MAX_MR_SIZE_GB, slots, MAX_MR_SIZE_GB, freeChunkIndex + 1);
          Do(Slot(s, -1));
          Do(Free(freeChunkIndex + 1));
        }
      }
      GivenUpSlots(v, c, stop, evictList, |evictList|);
      CutSettled(v, c, stop);
    }
  }

  lemma SlotsGo(v: View, c: nat, gone: seq<bool>, n: nat)
    requires Settled(v) && c < |v.chunkMap| && |gone| == MAX_MR_SIZE_GB && n <= MAX_MR_SIZE_GB
    ensures |Slots(v, c, gone, n)| == |v.cbIndexMap|
    ensures forall s | 0 <= s < |v.cbIndexMap| && !Goes(v, c, gone, MAX_MR_SIZE_GB, s) ::
              Slots(v, c, gone, n)[s] == v.chunkMapCbChunk[s]
  {}

  lemma NothingGoes(v: View, c: nat, gone: seq<bool>)
    requires Settled(v) && |gone| == MAX_MR_SIZE_GB
    ensures forall s | 0 <= s < |v.cbIndexMap| :: !Goes(v, c, gone, 0, s)
  {}

  /** The slots after the first n session chunks on the evict list have been given up. */
  function GivenUp(slots: seq<int>, evictList: seq<bool>, n: nat): (r: seq<int>)
    requires |evictList| == |slots|
    ensures |r| == |slots|
  {
    seq(|slots|, s requires 0 <= s < |slots| => if s < n && evictList[s] then -1 else slots[s])
  }

  lemma GiveUpStep(slots: seq<int>, evictList: seq<bool>, n: nat)
    requires |evictList| == |slots| && n < |slots|
    ensures GivenUp(slots, evictList, n)[n] == slots[n]
    ensures GivenUp(slots, evictList, n + 1) ==
              if evictList[n] then GivenUp(slots, evictList, n)[n := -1] else GivenUp(slots, evictList, n)
  {}

  lemma GivenUpSlots(v: View, c: nat, stop: seq<bool>, evictList: seq<bool>, n: nat)
    requires Settled(v) && |stop| == MAX_MR_SIZE_GB && |evictList| == |v.cbIndexMap| && n <= |evictList|
    requires forall s | 0 <= s < |evictList| :: evictList[s] == Goes(v, c, stop, MAX_MR_SIZE_GB, s)
    ensures |v.chunkMapCbChunk| == |evictList|
    ensures forall s | 0 <= s < |evictList| && !Goes(v, c, stop, MAX_MR_SIZE_GB, s) ::
              GivenUp(v.chunkMapCbChunk, evictList, n)[s] == v.chunkMapCbChunk[s]
    ensures n == 0 ==> GivenUp(v.chunkMapCbChunk, evictList, n) == v.chunkMapCbChunk
    ensures n == |evictList| ==> GivenUp(v.chunkMapCbChunk, evictList, n) == Slots(v, c, stop, MAX_MR_SIZE_GB)
  {}

  lemma GoesWasMapped(v: View, c: nat, gone: seq<bool>, s: nat)
    requires Settled(v) && |gone| == MAX_MR_SIZE_GB && s < |v.cbIndexMap| && Goes(v, c, gone, MAX_MR_SIZE_GB, s)
    ensures v.chunkMapCbChunk[s] != -1
  {}

  lemma {:induction false} AllFree(n: nat)
    ensures FreeChunks(seq(n, _ => -1)) == n
  {
    if n == 0 {
    } else {
      AllFree(n - 1);
      assert seq(n, _ => -1)[..n - 1] == seq(n - 1, _ => -1);
    }
  }
}
