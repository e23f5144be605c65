/** The choice of slabs that evict_mem takes back from clients. */
module Eviction {
  import opened Counting
  import opened Monitor
  import Placement

  const EXTRA_CHUNK_NUM := 2

  // ---------- Which clients are asked ----------

  /** The slabs of the clients on the send list. */
  ghost function AskedSlabs(b: Books, sendList: seq<bool>): (flags: seq<bool>)
    requires Sized(b) && |sendList| == MAX_CLIENT
    ensures |flags| == MAX_FREE_MEM_GB
  {
    AskedBelow(b, sendList, MAX_CLIENT)
  }

  ghost function AskedBelow(b: Books, sendList: seq<bool>, n: int): (flags: seq<bool>)
    requires Sized(b) && |sendList| == MAX_CLIENT && n <= MAX_CLIENT
    ensures |flags| == MAX_FREE_MEM_GB
    ensures forall i | 0 <= i < MAX_FREE_MEM_GB :: flags[i] == (0 <= b.connMap[i] < n && sendList[b.connMap[i]])
  {
    seq(MAX_FREE_MEM_GB, i requires 0 <= i < MAX_FREE_MEM_GB => 0 <= b.connMap[i] < n && sendList[b.connMap[i]])
  }

  lemma AskedStep(b: Books, sendList: seq<bool>, c: nat)
    requires Balanced(b) && |sendList| == MAX_CLIENT && c < MAX_CLIENT
    requires sendList[c] ==> b.states[c] != ConnIdle
    ensures Count(AskedBelow(b, sendList, c + 1)) == Count(AskedBelow(b, sendList, c)) + if sendList[c] then b.mapped[c] else 0
    ensures !sendList[c] ==> AskedBelow(b, sendList, c + 1) == AskedBelow(b, sendList, c)
  {
    hide Count;
    if sendList[c] {
      assert ClientOk(b, c);
      CountSplit(AskedBelow(b, sendList, c + 1), AskedBelow(b, sendList, c), OwnedBy(b.connMap, c));
    } else {
      assert AskedBelow(b, sendList, c + 1) == AskedBelow(b, sendList, c);
    }
  }

  /** A cyclic search for a slab that may still be selected; it meets one as long as there is one. */
  method Probe(open: seq<bool>, random: nat) returns (i: nat)
    requires Count(open) > 0
    ensures |open| > 0 && FirstFrom(open, random % |open|, i)
  {
    hide Placement.Next, Count;
    CountNone(open);
    ghost var goal :| 0 <= goal < |open| && open[goal];
    Placement.InRange(random, |open|);
    i := random % |open|;
    while !open[i]
      invariant i < |open| && forall x | 0 <= x < |open| && Passed(random % |open|, i, x) :: !open[x]
      decreases if i <= goal then goal - i else goal - i + |open|
    {
      i := Placement.Next(i, |open|);
    }
  }

  /** Exactly the owners of the picked slabs are on the send list. */
  ghost predicate Owners(sendList: seq<bool>, picks: seq<nat>, connMap: seq<int>) {
    forall c | 0 <= c < |sendList| :: sendList[c] <==> OwnsOne(picks, connMap, c)
  }

  ghost predicate OwnsOne(picks: seq<nat>, connMap: seq<int>, c: int) {
    exists j :: 0 <= j < |picks| && picks[j] < |connMap| && connMap[picks[j]] == c
  }

  lemma OneMoreOwner(sendList: seq<bool>, picks: seq<nat>, connMap: seq<int>, r: nat)
    requires Owners(sendList, picks, connMap) && r < |connMap| && 0 <= connMap[r] < |sendList|
    ensures Owners(sendList[connMap[r] := true], picks + [r], connMap)
  {
    var more := picks + [r];
    assert more[|picks|] == r;
    forall c | 0 <= c < |sendList| ensures OwnsOne(more, connMap, c) <==> OwnsOne(picks, connMap, c) || c == connMap[r] {
      if OwnsOne(picks, connMap, c) {
        var j :| 0 <= j < |picks| && picks[j] < |connMap| && connMap[picks[j]] == c;
        assert more[j] == picks[j];
      }
    }
  }

  /** Selects `draws` distinct owned slabs at random, and puts exactly their clients on the send list. */
  method DrawSlabs(b: Books, draws: nat, random: seq<nat>) returns (sendList: seq<bool>, ghost picks: seq<nat>)
    requires Balanced(b) && draws <= b.mappedSize && draws <= |random|
    ensures |sendList| == MAX_CLIENT && forall c: nat | c < MAX_CLIENT && sendList[c] :: b.states[c] != ConnIdle
    ensures |picks| == draws && Drawn(picks, Owned(b.connMap), random) && Owners(sendList, picks, b.connMap)
    ensures Count(AskedSlabs(b, sendList)) >= draws
  {
    MappedBound(b);
    ghost var owned := Owned(b.connMap);
    var open := Owned(b.connMap);
    sendList, picks := seq(MAX_CLIENT, _ => false), [];
    hide Count, FirstFrom, Drawn, Owners, Without, Balanced;
    NothingDrawn(owned, random, sendList, b.connMap);
    for j := 0 to draws
      invariant |sendList| == MAX_CLIENT && |picks| == j && open == Without(owned, picks) && Count(open) == Count(owned) - j
      invariant Drawn(picks, owned, random) && Owners(sendList, picks, b.connMap)
      invariant forall c: nat | c < MAX_CLIENT && sendList[c] :: b.states[c] != ConnIdle
    {
      var r := Probe(open, random[j]);
      OpenSlab(b, open, random[j] % |open|, r, picks);
      DrawnStep(picks, owned, random, r);
      OneMoreOwner(sendList, picks, b.connMap, r);
      open, picks := open[r := false], picks + [r];
      sendList := sendList[b.connMap[r] := true];
    }
    AskedPicks(b, sendList, picks);
  }

  lemma OpenSlab(b: Books, open: seq<bool>, start: nat, r: nat, picks: seq<nat>)
    requires Balanced(b) && open == Without(Owned(b.connMap), picks) && FirstFrom(open, start, r)
    ensures r < MAX_FREE_MEM_GB == |open| && 0 <= b.connMap[r] < MAX_CLIENT && b.states[b.connMap[r]] != ConnIdle
    ensures open[r := false] == Without(Owned(b.connMap), picks + [r]) && Count(open[r := false]) == Count(open) - 1
  {
    assert SlabOk(b, r);
    CountUpdate(open, r, false);
    hide Count;
  }

  /** The picked slabs are among those of the clients on the send list. */
  lemma AskedPicks(b: Books, sendList: seq<bool>, picks: seq<nat>)
    requires Sized(b) && |sendList| == MAX_CLIENT && Owners(sendList, picks, b.connMap)
    requires forall i | 0 <= i < MAX_FREE_MEM_GB :: -1 <= b.connMap[i] < MAX_CLIENT
    ensures Count(Owned(b.connMap)) - Count(Without(Owned(b.connMap), picks)) <= Count(AskedSlabs(b, sendList))
  {
    hide Count;
    var owned := Owned(b.connMap);
    var left := Without(owned, picks);
    var gone := Minus(owned, left);
    CountSplit(owned, left, gone);
    forall i | 0 <= i < MAX_FREE_MEM_GB && gone[i] ensures AskedSlabs(b, sendList)[i] {
      var j :| 0 <= j < |picks| && picks[j] == i;
      assert OwnsOne(picks, b.connMap, b.connMap[i]);
    }
    CountContained(gone, AskedSlabs(b, sendList));
  }

  lemma NothingDrawn(open: seq<bool>, random: seq<nat>, sendList: seq<bool>, connMap: seq<int>)
    requires forall c | 0 <= c < |sendList| :: !sendList[c]
    ensures Drawn([], open, random) && Owners(sendList, [], connMap)
    ensures Without(open, []) == open
  {}

  /** Whom evict_mem asks: every client that is mapped when the eviction takes all slabs but one, or more; otherwise exactly
      the owners of evict_g + 2 distinct slabs drawn at random. */
  ghost predicate Asked(b: Books, sendList: seq<bool>, evictG: nat, picks: seq<nat>, random: seq<nat>)
    requires Sized(b) && |sendList| == MAX_CLIENT
  {
    if b.mappedSize < evictG + 2 then forall c | 0 <= c < MAX_CLIENT :: sendList[c] <==> b.states[c] == ConnMapped
    else |picks| == evictG + 2 && Drawn(picks, Owned(b.connMap), random) && Owners(sendList, picks, b.connMap)
  }

  /** evict_mem's choice of clients. They own at least as many slabs as are needed, and two to spare unless all are asked. */
  method SelectClients(b: Books, need: nat, random: seq<nat>) returns (evictG: nat, sendList: seq<bool>, ghost picks: seq<nat>)
    requires Balanced(b) && |random| >= MAX_FREE_MEM_GB
    ensures evictG == if b.mappedSize < need then b.mappedSize else need
    ensures |sendList| == MAX_CLIENT && forall c: nat | c < MAX_CLIENT && sendList[c] :: b.states[c] != ConnIdle
    ensures Asked(b, sendList, evictG, picks, random)
    ensures AskedSlabs(b, sendList) == Owned(b.connMap) || Count(AskedSlabs(b, sendList)) >= evictG + 2
    ensures Count(AskedSlabs(b, sendList)) >= evictG
  {
    hide Count, Drawn, Owners;
    MappedBound(b);
    evictG := need;
    if b.mappedSize < need + EXTRA_CHUNK_NUM {
      if b.mappedSize < need {
        evictG := b.mappedSize;
      }
      sendList, picks := seq(MAX_CLIENT, c requires 0 <= c < MAX_CLIENT => b.states[c] == ConnMapped), [];
      forall i | 0 <= i < MAX_FREE_MEM_GB ensures AskedSlabs(b, sendList)[i] == Owned(b.connMap)[i] {
        assert SlabOk(b, i);
        if b.connMap[i] != -1 {
          var c := b.connMap[i];
          assert ClientOk(b, c);
          CountNone(OwnedBy(b.connMap, c));
        }
      }
      assert AskedSlabs(b, sendList) == Owned(b.connMap);
    } else {
      sendList, picks := DrawSlabs(b, need + EXTRA_CHUNK_NUM, random);
    }
  }

  lemma MappedBound(b: Books)
    requires Balanced(b)
    ensures Sized(b) && 0 <= b.mappedSize == Count(Owned(b.connMap)) <= MAX_FREE_MEM_GB
    ensures forall i | 0 <= i < MAX_FREE_MEM_GB :: -1 <= b.connMap[i] < MAX_CLIENT
  {
    hide Count;
    forall i: nat | i < MAX_FREE_MEM_GB ensures -1 <= b.connMap[i] < MAX_CLIENT {
      assert SlabOk(b, i);
    }
  }

  // ---------- The activity list ----------

  datatype ChunkActivity = ChunkActivity(activity: nat, chunkIndex: nat)

  /** Each client, when asked, reports an activity for each of its slabs, and for nothing else; zero means no report. */
  ghost predicate FullReports(connMap: seq<int>, reports: seq<seq<nat>>) {
    && |reports| == MAX_CLIENT && |connMap| == MAX_FREE_MEM_GB
    && forall c | 0 <= c < MAX_CLIENT ::
         |reports[c]| == MAX_FREE_MEM_GB && forall m | 0 <= m < MAX_FREE_MEM_GB :: reports[c][m] != 0 <==> connMap[m] == c
  }

  /** The list holds every flagged slab once, with what its client reported for it. */
  ghost predicate Lists(list: seq<ChunkActivity>, flags: seq<bool>, b: Books, reports: seq<seq<nat>>) {
    && |flags| == |b.connMap|
    && (forall p | 0 <= p < |list| :: Entry(list[p], flags, b, reports))
    && (forall p, q | 0 <= p < q < |list| :: list[p].chunkIndex != list[q].chunkIndex)
    && forall m | 0 <= m < |flags| && flags[m] :: exists p :: 0 <= p < |list| && list[p].chunkIndex == m
  }

  ghost predicate Entry(e: ChunkActivity, flags: seq<bool>, b: Books, reports: seq<seq<nat>>)
    requires |flags| == |b.connMap|
  {
    && e.chunkIndex < |flags| && flags[e.chunkIndex]
    && 0 <= b.connMap[e.chunkIndex] < |reports| && e.chunkIndex < |reports[b.connMap[e.chunkIndex]]|
    && e.activity == reports[b.connMap[e.chunkIndex]][e.chunkIndex]
  }

  /** The slabs already listed: those of asked clients below c, and those below m of client c. */
  ghost function Listed(b: Books, sendList: seq<bool>, c: nat, m: nat): (flags: seq<bool>)
    requires Sized(b) && |sendList| == MAX_CLIENT && c <= MAX_CLIENT
    ensures |flags| == MAX_FREE_MEM_GB
    ensures forall i | 0 <= i < MAX_FREE_MEM_GB ::
              flags[i] == (AskedBelow(b, sendList, c)[i] || (b.connMap[i] == c && i < m))
  {
    seq(MAX_FREE_MEM_GB, i requires 0 <= i < MAX_FREE_MEM_GB =>
        AskedBelow(b, sendList, c)[i] || (b.connMap[i] == c && i < m))
  }

  lemma ListOneMore(list: seq<ChunkActivity>, e: ChunkActivity, flags: seq<bool>, b: Books, reports: seq<seq<nat>>)
    requires Lists(list, flags, b, reports) && e.chunkIndex < |flags| && !flags[e.chunkIndex]
    requires Entry(e, flags[e.chunkIndex := true], b, reports)
    ensures Lists(list + [e], flags[e.chunkIndex := true], b, reports)
  {
    var longer, more := list + [e], flags[e.chunkIndex := true];
    forall m | 0 <= m < |more| && more[m] ensures exists p :: 0 <= p < |longer| && longer[p].chunkIndex == m {
      if m == e.chunkIndex {
        assert longer[|list|].chunkIndex == m;
      } else {
        var p :| 0 <= p < |list| && list[p].chunkIndex == m;
        assert longer[p].chunkIndex == m;
      }
    }
  }

  /** How many candidates the asked clients have. */
  method CountCandidates(b: Books, sendList: seq<bool>) returns (k: nat)
    requires Balanced(b) && |sendList| == MAX_CLIENT
    requires forall c: nat | c < MAX_CLIENT && sendList[c] :: b.states[c] != ConnIdle
    ensures k == Count(AskedSlabs(b, sendList))
  {
    BalancedSized(b);
    CountNone(AskedBelow(b, sendList, 0));
    hide Count, Balanced;
    var total := 0;
    for c := 0 to MAX_CLIENT
      invariant total == Count(AskedBelow(b, sendList, c))
    {
      AskedStep(b, sendList, c);
      if sendList[c] {
        total := total + b.mapped[c];
      }
    }
    k := total;
  }

  lemma ListedSteps(b: Books, sendList: seq<bool>, c: nat, m: nat)
    requires Sized(b) && |sendList| == MAX_CLIENT && c < MAX_CLIENT && sendList[c] && m < MAX_FREE_MEM_GB
    ensures Listed(b, sendList, c, 0) == AskedBelow(b, sendList, c)
    ensures Listed(b, sendList, c, MAX_FREE_MEM_GB) == AskedBelow(b, sendList, c + 1)
    ensures b.connMap[m] == c ==> !Listed(b, sendList, c, m)[m]
    ensures Listed(b, sendList, c, m + 1) ==
              if b.connMap[m] == c then Listed(b, sendList, c, m)[m := true] else Listed(b, sendList, c, m)
  {}

  /** Listed slabs are asked for, so there is room for one more in a list of all candidates. */
  lemma Room(b: Books, sendList: seq<bool>, c: nat, m: nat)
    requires Sized(b) && |sendList| == MAX_CLIENT && c < MAX_CLIENT && sendList[c] && m < MAX_FREE_MEM_GB && b.connMap[m] == c
    ensures Count(Listed(b, sendList, c, m)[m := true]) == Count(Listed(b, sendList, c, m)) + 1
    ensures Count(Listed(b, sendList, c, m)) < Count(AskedSlabs(b, sendList))
  {
    hide Count;
    CountSet(Listed(b, sendList, c, m), m);
    CountContained(Listed(b, sendList, c, m)[m := true], AskedSlabs(b, sendList));
  }

  /** The reports of one asked client. */
  method CollectClient(b: Books, sendList: seq<bool>, reports: seq<seq<nat>>, list: array<ChunkActivity>, k: nat, c: nat,
                       from: nat) returns (n: nat)
    requires Sized(b) && |sendList| == MAX_CLIENT && FullReports(b.connMap, reports) && c < MAX_CLIENT && sendList[c]
    requires k == Count(AskedSlabs(b, sendList)) == list.Length && from == Count(AskedBelow(b, sendList, c)) <= k
    requires Lists(list[..from], AskedBelow(b, sendList, c), b, reports)
    modifies list
    ensures n == Count(AskedBelow(b, sendList, c + 1)) && n <= k
    ensures Lists(list[..n], AskedBelow(b, sendList, c + 1), b, reports)
  {
    hide Count, Lists, Listed, AskedBelow;
    n := from;
    ListedSteps(b, sendList, c, 0);
    for m := 0 to MAX_FREE_MEM_GB
      invariant n == Count(Listed(b, sendList, c, m)) && n <= k
      invariant Lists(list[..n], Listed(b, sendList, c, m), b, reports)
    {
      ListedSteps(b, sendList, c, m);
      if reports[c][m] != 0 {
        Room(b, sendList, c, m);
        var e := ChunkActivity(reports[c][m], m);
        ListOneMore(list[..n], e, Listed(b, sendList, c, m), b, reports);
        ghost var before := list[..n];
        list[n] := e;
        assert list[..n + 1] == before + [e];
        n := n + 1;
      }
    }
  }

  /** The reports of the asked clients, in the order of clients and slabs. */
  method CollectReports(b: Books, sendList: seq<bool>, reports: seq<seq<nat>>, k: nat) returns (list: array<ChunkActivity>)
    requires Balanced(b) && |sendList| == MAX_CLIENT && FullReports(b.connMap, reports)
    requires k == Count(AskedSlabs(b, sendList))
    ensures fresh(list) && list.Length == k && Lists(list[..], AskedSlabs(b, sendList), b, reports)
  {
    BalancedSized(b);
    list := new ChunkActivity[k];
    CountNone(AskedBelow(b, sendList, 0));
    hide Count, Balanced, Lists, Listed, AskedBelow;
    NothingListed(list[..0], AskedBelow(b, sendList, 0), b, reports);
    var n := 0;
    for c := 0 to MAX_CLIENT
      invariant n == Count(AskedBelow(b, sendList, c)) && n <= k
      invariant Lists(list[..n], AskedBelow(b, sendList, c), b, reports)
    {
      if sendList[c] {
        n := CollectClient(b, sendList, reports, list, k, c, n);
      } else {
        SkipClient(b, sendList, c);
      }
    }
    assert list[..n] == list[..];
  }

  lemma SkipClient(b: Books, sendList: seq<bool>, c: nat)
    requires Sized(b) && |sendList| == MAX_CLIENT && c < MAX_CLIENT && !sendList[c]
    ensures AskedBelow(b, sendList, c + 1) == AskedBelow(b, sendList, c)
  {}

  lemma NothingListed(list: seq<ChunkActivity>, flags: seq<bool>, b: Books, reports: seq<seq<nat>>)
    requires list == [] && |flags| == |b.connMap| && forall i | 0 <= i < |flags| :: !flags[i]
    ensures Lists(list, flags, b, reports)
  {}

  // ---------- The victims ----------

  /** The first n entries are the least active, in ascending order. */
  ghost predicate LeastFirst(list: seq<ChunkActivity>, n: nat) {
    forall p, q | 0 <= p < q < |list| && p < n :: list[p].activity <= list[q].activity
  }

  lemma SwapLists(list: seq<ChunkActivity>, flags: seq<bool>, b: Books, reports: seq<seq<nat>>, i: nat, j: nat)
    requires Lists(list, flags, b, reports) && i < j < |list|
    ensures Lists(list[i := list[j]][j := list[i]], flags, b, reports)
  {
    var swapped := list[i := list[j]][j := list[i]];
    forall m | 0 <= m < |flags| && flags[m] ensures exists p :: 0 <= p < |swapped| && swapped[p].chunkIndex == m {
      var p :| 0 <= p < |list| && list[p].chunkIndex == m;
      assert swapped[if p == i then j else if p == j then i else p].chunkIndex == m;
    }
  }

  /** The STOP marks: slab m of client c is to go when it is among the first n of the list. */
  ghost predicate Stops(stop: seq<bool>, list: seq<ChunkActivity>, n: nat)
  {
    n <= |list| && forall m | 0 <= m < |stop| :: stop[m] <==> exists p :: 0 <= p < n && list[p].chunkIndex == m
  }

  ghost predicate LosesSlab(c: int, stop: seq<bool>, connMap: seq<int>) {
    exists m :: 0 <= m < |stop| && m < |connMap| && stop[m] && connMap[m] == c
  }

  /** Clients that lose a slab are marked 2 on the send list. */
  ghost predicate Losers(sends: seq<nat>, sendList: seq<bool>, stop: seq<bool>, b: Books) {
    && |sends| == |sendList| && |stop| == |b.connMap|
    && forall c | 0 <= c < |sends| ::
         sends[c] == if !sendList[c] then 0 else if LosesSlab(c, stop, b.connMap) then 2 else 1
  }

  /** One round of the partial sort: the least active of the entries from n on moves to n. */
  method MoveLeast(list: array<ChunkActivity>, n: nat, ghost flags: seq<bool>, ghost b: Books, ghost reports: seq<seq<nat>>)
    requires n < list.Length && Lists(list[..], flags, b, reports) && LeastFirst(list[..], n)
    modifies list
    ensures Lists(list[..], flags, b, reports) && LeastFirst(list[..], n + 1)
    ensures list[..n] == old(list[..n])
  {
    hide Lists;
    for m := n + 1 to list.Length
      invariant Lists(list[..], flags, b, reports) && LeastFirst(list[..], n) && list[..n] == old(list[..n])
      invariant forall q | n <= q < m :: list[n].activity <= list[q].activity
    {
      if list[n].activity > list[m].activity {
        SwapLists(list[..], flags, b, reports, n, m);
        ghost var swapped := list[..][n := list[m]][m := list[n]];
        list[n], list[m] := list[m], list[n];
        assert list[..] == swapped;
      }
    }
  }

  /** The partial sort of the activity list, which marks each victim once its place is settled. */
  method ChooseVictims(b: Books, sendList: seq<bool>, list: array<ChunkActivity>, evictG: nat, ghost reports: seq<seq<nat>>)
    returns (stop: seq<bool>, sends: seq<nat>)
    requires Sized(b) && |sendList| == MAX_CLIENT && evictG <= list.Length
    requires Lists(list[..], AskedSlabs(b, sendList), b, reports)
    modifies list
    ensures Lists(list[..], AskedSlabs(b, sendList), b, reports) && LeastFirst(list[..], evictG)
    ensures |stop| == MAX_FREE_MEM_GB && Stops(stop, list[..], evictG) && Losers(sends, sendList, stop, b)
  {
    hide Lists, LeastFirst, AskedBelow, Stops, Losers;
    stop := seq(MAX_FREE_MEM_GB, _ => false);
    sends := seq(MAX_CLIENT, c requires 0 <= c < MAX_CLIENT => if sendList[c] then 1 else 0);
    NoVictims(list[..], stop, sends, sendList, b);
    for n := 0 to evictG
      invariant Lists(list[..], AskedSlabs(b, sendList), b, reports) && LeastFirst(list[..], n)
      invariant |stop| == MAX_FREE_MEM_GB && |sends| == MAX_CLIENT
      invariant Stops(stop, list[..], n) && Losers(sends, sendList, stop, b)
    {
      ghost var before := list[..];
      MoveLeast(list, n, AskedSlabs(b, sendList), b, reports);
      SamePrefix(stop, before, list[..], n);
      ListedEntry(list[..], AskedSlabs(b, sendList), b, reports, n);
      var chunk := list[n].chunkIndex;
      var conn := b.connMap[chunk];
      NextVictim(list[..], n, stop, sends, sendList, b);
      assert sends[conn] == 2 ==> sends == sends[conn := 2];
      if sends[conn] == 1 {
        sends := sends[conn := 2];
      }
      stop := stop[chunk := true];
    }
  }

  lemma ListedEntry(list: seq<ChunkActivity>, flags: seq<bool>, b: Books, reports: seq<seq<nat>>, n: nat)
    requires Lists(list, flags, b, reports) && n < |list|
    ensures list[n].chunkIndex < |flags| && flags[list[n].chunkIndex]
  {}

  lemma SamePrefix(stop: seq<bool>, before: seq<ChunkActivity>, after: seq<ChunkActivity>, n: nat)
    requires Stops(stop, before, n) && n <= |after| && n <= |before| && before[..n] == after[..n]
    ensures Stops(stop, after, n)
  {
    assert forall p | 0 <= p < n :: before[..n][p] == after[..n][p];
  }

  lemma NoVictims(list: seq<ChunkActivity>, stop: seq<bool>, sends: seq<nat>, sendList: seq<bool>, b: Books)
    requires |stop| == |b.connMap| && |sends| == |sendList|
    requires forall m | 0 <= m < |stop| :: !stop[m]
    requires forall c | 0 <= c < |sends| :: sends[c] == if sendList[c] then 1 else 0
    ensures Stops(stop, list, 0) && Losers(sends, sendList, stop, b)
    ensures LeastFirst(list, 0)
  {}

  lemma NextVictim(list: seq<ChunkActivity>, n: nat, stop: seq<bool>, sends: seq<nat>, sendList: seq<bool>, b: Books)
    requires n < |list| && Stops(stop, list, n) && Losers(sends, sendList, stop, b)
    requires list[n].chunkIndex < |stop| && 0 <= b.connMap[list[n].chunkIndex] < |sends| && sendList[b.connMap[list[n].chunkIndex]]
    ensures Stops(stop[list[n].chunkIndex := true], list, n + 1)
    ensures Losers(sends[b.connMap[list[n].chunkIndex] := 2], sendList, stop[list[n].chunkIndex := true], b)
    ensures sends[b.connMap[list[n].chunkIndex]] == 1 || sends[b.connMap[list[n].chunkIndex]] == 2
  {
    var chunk := list[n].chunkIndex;
    var conn := b.connMap[chunk];
    var stop' := stop[chunk := true];
    assert stop'[chunk];
    forall m | 0 <= m < |stop'| ensures stop'[m] <==> exists p :: 0 <= p < n + 1 && list[p].chunkIndex == m {
      if m == chunk {
        assert list[n].chunkIndex == m;
      } else if stop'[m] {
        var p :| 0 <= p < n && list[p].chunkIndex == m;
        assert p < n + 1;
      }
    }
    forall c | 0 <= c < |sends| && c != conn
      ensures LosesSlab(c, stop', b.connMap) <==> LosesSlab(c, stop, b.connMap)
    {
      if LosesSlab(c, stop, b.connMap) {
        var m :| 0 <= m < |stop| && stop[m] && b.connMap[m] == c;
        assert stop'[m];
      }
    }
  }

  // ---------- evict_mem ----------

  /** What the whole of evict_mem promises about the slabs it stops. */
  ghost predicate LeastActive(stop: seq<bool>, evictG: nat, sendList: seq<bool>, b: Books, reports: seq<seq<nat>>)
    requires Sized(b) && |sendList| == MAX_CLIENT && FullReports(b.connMap, reports)
  {
    && |stop| == MAX_FREE_MEM_GB && Count(stop) == evictG
    && (forall m | 0 <= m < MAX_FREE_MEM_GB && stop[m] :: AskedSlabs(b, sendList)[m])
    && forall m, r | 0 <= m < MAX_FREE_MEM_GB && 0 <= r < MAX_FREE_MEM_GB && stop[m] && !stop[r] && AskedSlabs(b, sendList)[r] ::
         reports[b.connMap[m]][m] <= reports[b.connMap[r]][r]
  }

  lemma {:induction false} CountFirstListed(stop: seq<bool>, list: seq<ChunkActivity>, n: nat)
    requires Stops(stop, list, n)
    requires forall p | 0 <= p < |list| :: list[p].chunkIndex < |stop|
    requires forall p, q | 0 <= p < q < |list| :: list[p].chunkIndex != list[q].chunkIndex
    ensures Count(stop) == n
    decreases n
  {
    hide Count;
    if n == 0 {
      CountNone(stop);
    } else {
      var chunk := list[n - 1].chunkIndex;
      var fewer := stop[chunk := false];
      assert stop[chunk];
      forall m | 0 <= m < |fewer| ensures fewer[m] <==> exists p :: 0 <= p < n - 1 && list[p].chunkIndex == m {
        if fewer[m] {
          var p :| 0 <= p < n && list[p].chunkIndex == m;
        } else if stop[m] {
          assert m == chunk;
        }
      }
      CountFirstListed(fewer, list, n - 1);
      CountSet(fewer, chunk);
      assert fewer[chunk := true] == stop;
    }
  }

  lemma VictimsAreLeastActive(stop: seq<bool>, list: seq<ChunkActivity>, n: nat, sendList: seq<bool>, b: Books,
                              reports: seq<seq<nat>>)
    requires Sized(b) && |sendList| == MAX_CLIENT && FullReports(b.connMap, reports) && |stop| == MAX_FREE_MEM_GB
    requires Lists(list, AskedSlabs(b, sendList), b, reports) && LeastFirst(list, n) && Stops(stop, list, n)
    ensures LeastActive(stop, n, sendList, b, reports)
  {
    hide AskedBelow, Count;
    CountFirstListed(stop, list, n);
    forall m | 0 <= m < MAX_FREE_MEM_GB && stop[m] ensures AskedSlabs(b, sendList)[m] {
      var p :| 0 <= p < n && list[p].chunkIndex == m;
      assert Entry(list[p], AskedSlabs(b, sendList), b, reports);
    }
    forall m, r | 0 <= m < MAX_FREE_MEM_GB && 0 <= r < MAX_FREE_MEM_GB && stop[m] && !stop[r] && AskedSlabs(b, sendList)[r]
      ensures reports[b.connMap[m]][m] <= reports[b.connMap[r]][r]
    {
      var p :| 0 <= p < n && list[p].chunkIndex == m;
      var q :| 0 <= q < |list| && list[q].chunkIndex == r;
      assert q >= n;
      assert Entry(list[p], AskedSlabs(b, sendList), b, reports) && Entry(list[q], AskedSlabs(b, sendList), b, reports);
    }
  }

  /** evict_mem: frees unowned slabs first, then has clients stop their least active ones. The clients that are asked
      are up to the random source; the reports are what they answer. */
  method EvictMem(session: RdmaSession, stopG: nat, random: seq<nat>, reports: seq<seq<nat>>)
    returns (evictG: nat, sendList: seq<bool>, sends: seq<nat>, stop: seq<bool>, ghost picks: seq<nat>)
    requires Balanced(session.Now()) && stopG > 0 && |random| >= MAX_FREE_MEM_GB
    requires FullReports(session.connMap, reports)
    modifies session
    ensures Balanced(session.Now()) && session.connMap == old(session.connMap)
    ensures var unowned := Unowned(old(session.Now()));
            && FreesLowest(old(session.Now()), session.Now(), if stopG <= unowned then stopG else unowned)
            && session.sizeGb == old(session.sizeGb) - (if stopG <= unowned then stopG else unowned)
            && evictG == (if stopG <= unowned then 0 else if session.mappedSize < stopG - unowned then session.mappedSize
                          else stopG - unowned)
    ensures Comes(old(session.Now()), FreeUnmapped(stopG)) && session.Now() == Step(old(session.Now()), FreeUnmapped(stopG))
    ensures |sendList| == MAX_CLIENT && FullReports(session.connMap, reports)
    ensures LeastActive(stop, evictG, sendList, session.Now(), reports) && Losers(sends, sendList, stop, session.Now())
    ensures stopG > Unowned(old(session.Now())) ==> Asked(session.Now(), sendList, evictG, picks, random)
    ensures stopG <= Unowned(old(session.Now())) ==> forall c | 0 <= c < MAX_CLIENT :: !sendList[c]
  {
    hide Count, Balanced, Losers, LeastActive, Lists, Stops, LeastFirst, FullReports, Asked, FreesLowest;
    BalancedSized(session.Now());
    FreeUnmappedBalanced(session.Now(), stopG);
    MappedBound(session.Now());
    var left := session.FreeUnmappedSlabs(stopG);
    ghost var b := session.Now();
    MappedBound(b);
    if left == 0 {
      evictG, sendList, stop, picks := 0, seq(MAX_CLIENT, _ => false), seq(MAX_FREE_MEM_GB, _ => false), [];
      sends := seq(MAX_CLIENT, _ => 0);
      NobodyStops(stop, sendList, sends, b, reports);
      return;
    }
    var books := Books(session.mallocMap, session.connMap, session.sizeGb, session.mappedSize, session.connsState,
                       session.sessChunkMap, session.mappedChunkSize, session.connNum, false);
    evictG, sendList, picks := SelectClients(books, left, random);
    var k := CountCandidates(books, sendList);
    var list := CollectReports(books, sendList, reports, k);
    stop, sends := ChooseVictims(books, sendList, list, evictG, reports);
    VictimsAreLeastActive(stop, list[..], evictG, sendList, b, reports);
  }

  lemma NobodyStops(stop: seq<bool>, sendList: seq<bool>, sends: seq<nat>, b: Books, reports: seq<seq<nat>>)
    requires Sized(b) && |sendList| == |sends| == MAX_CLIENT && |stop| == MAX_FREE_MEM_GB && FullReports(b.connMap, reports)
    requires (forall m | 0 <= m < |stop| :: !stop[m]) && forall c | 0 <= c < MAX_CLIENT :: !sendList[c] && sends[c] == 0
    ensures LeastActive(stop, 0, sendList, b, reports) && Losers(sends, sendList, stop, b)
  {
    CountNone(stop);
  }
}
