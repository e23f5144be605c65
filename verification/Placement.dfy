/** Which servers a coding group is placed on. */
module Placement {
  import opened Matrices
  import opened Decode
  import opened Counting
  import opened SlabMap
  import opened Striping

  /** cb_state >= CB_EVICTING. */
  predicate Unavailable(state: CbState) {
    state == Evicting || state == Fail
  }

  /** The servers that may be selected. */
  function Usable(states: seq<CbState>): (usable: seq<bool>)
    ensures |usable| == |states| && forall c | 0 <= c < |states| :: usable[c] == (states[c] in {Idle, Connected, Mapped})
  {
    seq(|states|, c requires 0 <= c < |states| => !Unavailable(states[c]))
  }

  function Barred(states: seq<CbState>): (barred: seq<bool>)
    ensures |barred| == |states| && forall c | 0 <= c < |states| :: barred[c] == Unavailable(states[c])
  {
    seq(|states|, c requires 0 <= c < |states| => Unavailable(states[c]))
  }

  /** The servers that may be selected, in ascending order. */
  function Available(states: seq<CbState>): (servers: seq<nat>)
    ensures forall i | 0 <= i < |servers| :: servers[i] < |states| && states[servers[i]] in {Idle, Connected, Mapped}
    ensures forall c | 0 <= c < |states| && states[c] in {Idle, Connected, Mapped} :: c in servers
    ensures Distinct(servers)
  {
    AllAvailable(states, |states|);
    Survivors(Barred(states), |states|)
  }

  lemma {:induction false} AllAvailable(states: seq<CbState>, n: nat)
    requires n <= |states|
    ensures forall c | 0 <= c < n && !Unavailable(states[c]) :: c in Survivors(Barred(states), n)
  {
    if n == 0 {
    } else {
      AllAvailable(states, n - 1);
    }
  }

  // ---------- Selection ----------

  /** One step around the list of servers. */
  function Next(c: nat, n: nat): (next: nat)
    requires c < n
    ensures next == if c + 1 == n then 0 else c + 1
  {
    (c + 1) % n
  }

  lemma InRange(random: nat, n: nat)
    requires n > 0
    ensures random % n < n
  {}

  /** A cyclic search for a server that is available and not yet taken; it meets one as long as there is one. */
  method Probe(states: seq<CbState>, taken: seq<nat>, random: nat, ghost goal: nat) returns (c: nat)
    requires goal < |states| && !Unavailable(states[goal]) && goal !in taken
    ensures c < |states| && !Unavailable(states[c]) && c !in taken
    ensures FirstFrom(Without(Usable(states), taken), random % |states|, c)
  {
    hide Next;
    InRange(random, |states|);
    c := random % |states|;
    while Unavailable(states[c]) || c in taken
      invariant c < |states|
      invariant forall x | 0 <= x < |states| && Passed(random % |states|, c, x) :: Unavailable(states[x]) || x in taken
      decreases if c <= goal then goal - c else goal - c + |states|
    {
      c := Next(c, |states|);
    }
  }

  /** More servers than have been taken: one is left. */
  lemma OneLeft(states: seq<CbState>, taken: seq<nat>) returns (goal: nat)
    requires |taken| < |Available(states)|
    ensures goal < |states| && !Unavailable(states[goal]) && goal !in taken
  {
    var servers := Available(states);
    if forall i | 0 <= i < |servers| :: servers[i] in taken {
      NotLonger(servers, taken);
      assert false;
    }
    var i :| 0 <= i < |servers| && servers[i] !in taken;
    goal := servers[i];
  }

  /** The selection of IS_single_chunk_map: every available server when there are at most n + 1, otherwise n + 1 of them
      at random, never the same one twice. */
  method SelectServers(states: seq<CbState>, n: nat, random: seq<nat>) returns (selection: seq<nat>)
    requires |random| == n + 1
    ensures |selection| == if |Available(states)| <= n + 1 then |Available(states)| else n + 1
    ensures Distinct(selection)
    ensures forall i | 0 <= i < |selection| :: selection[i] < |states| && states[selection[i]] in {Idle, Connected, Mapped}
    ensures |Available(states)| <= n + 1 ==> selection == Available(states)
    ensures |Available(states)| > n + 1 ==> Drawn(selection, Usable(states), random)
  {
    hide Survivors, Available, Drawn, FirstFrom, Without;
    var avail := CountAvailable(states);
    selection := [];
    if avail <= n + 1 {
      selection := ListAvailable(states);
      AvailableServers(states);
    } else {
      NothingDrawn(states, random);
      for j := 0 to n + 1
        invariant |selection| == j && Distinct(selection) && Drawn(selection, Usable(states), random)
        invariant forall i | 0 <= i < j :: selection[i] < |states| && !Unavailable(states[selection[i]])
      {
        ghost var goal := OneLeft(states, selection);
        var c := Probe(states, selection, random[j], goal);
        DrawnStep(selection, Usable(states), random, c);
        selection := selection + [c];
      }
    }
  }

  lemma NothingDrawn(states: seq<CbState>, random: seq<nat>)
    ensures Drawn([], Usable(states), random)
  {}

  lemma AvailableServers(states: seq<CbState>)
    ensures Distinct(Available(states))
    ensures forall i | 0 <= i < |Available(states)| ::
              Available(states)[i] < |states| && states[Available(states)[i]] in {Idle, Connected, Mapped}
  {}

  method CountAvailable(states: seq<CbState>) returns (avail: int)
    ensures avail == |Available(states)|
  {
    avail := |states|;
    for i := 0 to |states|
      invariant avail == |states| - i + |Survivors(Barred(states), i)|
    {
      if Unavailable(states[i]) {
        avail := avail - 1;
      }
    }
  }

  method ListAvailable(states: seq<CbState>) returns (selection: seq<nat>)
    ensures selection == Available(states)
  {
    selection := [];
    for i := 0 to |states|
      invariant selection == Survivors(Barred(states), i)
    {
      if !Unavailable(states[i]) {
        selection := selection + [i];
      }
    }
  }

  // ---------- Sorting ----------

  /** The first i entries are the largest, in descending order. */
  ghost predicate TopSorted(a: seq<int>, i: nat)
  {
    forall p, q | 0 <= p < q < |a| && p < i :: a[p] >= a[q]
  }

  /** Every entry belongs to the server named beside it. */
  ghost predicate Reports(mem: seq<int>, servers: seq<int>, reported: seq<int>) {
    && |mem| == |servers|
    && forall i | 0 <= i < |mem| :: 0 <= servers[i] < |reported| && mem[i] == reported[servers[i]]
  }

  lemma SwapReports(mem: seq<int>, servers: seq<int>, reported: seq<int>, i: nat, j: nat)
    requires Reports(mem, servers, reported) && i < j < |mem|
    ensures Reports(mem[i := mem[j]][j := mem[i]], servers[i := servers[j]][j := servers[i]], reported)
    ensures Distinct(servers) ==> Distinct(servers[i := servers[j]][j := servers[i]])
    ensures forall c :: c in servers[i := servers[j]][j := servers[i]] <==> c in servers
  {
    var swapped := servers[i := servers[j]][j := servers[i]];
    forall c ensures c in swapped <==> c in servers {
      if c in servers {
        var p :| 0 <= p < |servers| && servers[p] == c;
        assert swapped[if p == i then j else if p == j then i else p] == c;
      }
      if c in swapped {
        var p :| 0 <= p < |servers| && swapped[p] == c;
        assert servers[if p == i then j else if p == j then i else p] == c;
      }
    }
  }

  /** The entries above a bound. */
  function Above(mem: seq<int>, bound: int): (flags: seq<bool>)
    ensures |flags| == |mem| && forall i | 0 <= i < |mem| :: flags[i] == (mem[i] > bound)
  {
    seq(|mem|, i requires 0 <= i < |mem| => mem[i] > bound)
  }

  /** An exchange changes no count. */
  lemma SwapAbove(mem: seq<int>, i: nat, j: nat)
    requires i < j < |mem|
    ensures forall bound: int :: Count(Above(mem[i := mem[j]][j := mem[i]], bound)) == Count(Above(mem, bound))
  {
    hide Count;
    forall bound: int ensures Count(Above(mem[i := mem[j]][j := mem[i]], bound)) == Count(Above(mem, bound)) {
      var flags := Above(mem, bound);
      CountSwap(flags, i, j);
      assert Above(mem[i := mem[j]][j := mem[i]], bound) == flags[i := flags[j]][j := flags[i]];
    }
  }

  /** The n-th entry is above a bound exactly when at least n entries are. */
  lemma NthLargest(mem: seq<int>, n: nat, bound: int)
    requires TopSorted(mem, n) && 1 <= n <= |mem|
    ensures mem[n - 1] > bound <==> Count(Above(mem, bound)) >= n
  {
    hide Count;
    var flags := Above(mem, bound);
    if mem[n - 1] > bound {
      CountFull(flags[..n]);
      CountPrefix(flags, n);
    } else {
      CountTail(flags, n - 1);
      CountAtMost(flags, n - 1);
    }
  }

  /** The exchange of two entries by additions and subtractions. */
  method Exchange(a: array<int>, i: nat, j: nat)
    requires i < j < a.Length
    modifies a
    ensures a[..] == old(a[..])[i := old(a[j])][j := old(a[i])]
  {
    a[i] := a[i] + a[j];
    a[j] := a[i] - a[j];
    a[i] := a[i] - a[j];
  }

  /** The partial selection sort of IS_single_chunk_map: the n servers with the largest free memory come first. */
  method SortFreeMem(freeMem: array<int>, servers: array<int>, n: nat, ghost reported: seq<int>)
    requires freeMem != servers && freeMem.Length == servers.Length && n <= freeMem.Length
    requires Reports(freeMem[..], servers[..], reported) && Distinct(servers[..])
    modifies freeMem, servers
    ensures Reports(freeMem[..], servers[..], reported) && Distinct(servers[..])
    ensures forall c :: c in servers[..] <==> c in old(servers[..])
    ensures TopSorted(freeMem[..], n)
    ensures forall bound: int :: Count(Above(freeMem[..], bound)) == Count(Above(old(freeMem[..]), bound))
  {
    hide Reports, Distinct, Count, Above;
    ghost var start := freeMem[..];
    var k := freeMem.Length;
    for i := 0 to n
      invariant Reports(freeMem[..], servers[..], reported) && Distinct(servers[..])
      invariant forall c :: c in servers[..] <==> c in old(servers[..])
      invariant TopSorted(freeMem[..], i)
      invariant forall bound: int :: Count(Above(freeMem[..], bound)) == Count(Above(start, bound))
    {
      for j := i + 1 to k
        invariant Reports(freeMem[..], servers[..], reported) && Distinct(servers[..])
        invariant forall c :: c in servers[..] <==> c in old(servers[..])
        invariant TopSorted(freeMem[..], i)
        invariant forall bound: int :: Count(Above(freeMem[..], bound)) == Count(Above(start, bound))
        invariant forall q | i <= q < j :: freeMem[i] >= freeMem[q]
      {
        if freeMem[i] < freeMem[j] {
          SwapReports(freeMem[..], servers[..], reported, i, j);
          SwapAbove(freeMem[..], i, j);
          Exchange(freeMem, i, j);
          Exchange(servers, i, j);
        }
      }
    }
  }

  // ---------- Placing a group ----------

  /** What the selected servers report, in their order. */
  function Memories(selection: seq<nat>, reported: seq<int>): (mem: seq<int>)
    requires forall i | 0 <= i < |selection| :: selection[i] < |reported|
    ensures |mem| == |selection| && forall i | 0 <= i < |mem| :: mem[i] == reported[selection[i]]
  {
    seq(|selection|, i requires 0 <= i < |selection| => reported[selection[i]])
  }

  /** Queries the selected servers; an idle one gets connected first. */
  method QueryFreeMem(states: seq<CbState>, selection: seq<nat>, reported: seq<int>)
    returns (states': seq<CbState>, freeMem: array<int>, servers: array<int>)
    requires |reported| == |states| && Distinct(selection)
    requires forall i | 0 <= i < |selection| :: selection[i] < |states| && !Unavailable(states[selection[i]])
    ensures fresh(freeMem) && fresh(servers) && freeMem != servers && servers[..] == selection
    ensures freeMem.Length == servers.Length && Reports(freeMem[..], servers[..], reported)
    ensures freeMem[..] == Memories(selection, reported)
    ensures |states'| == |states| && forall c | 0 <= c < |states| ::
              states'[c] == if c in selection && states[c] == Idle then Connected else states[c]
  {
    freeMem, servers := new int[|selection|], new int[|selection|];
    states' := states;
    for i := 0 to |selection|
      invariant servers[..i] == selection[..i]
      invariant forall r | 0 <= r < i :: freeMem[r] == reported[selection[r]]
      invariant |states'| == |states| && forall c | 0 <= c < |states| ::
        states'[c] == if c in selection[..i] && states[c] == Idle then Connected else states[c]
    {
      var c := selection[i];
      if states'[c] == Idle {
        states' := states'[c := Connected];
      }
      freeMem[i], servers[i] := reported[c], c;
    }
    assert servers[..] == selection && freeMem[..] == Memories(selection, reported);
    assert selection[..|selection|] == selection;
  }

  /** How each server would answer a bind: the slots that it names. */
  type Answers = seq<seq<bool>>

  ghost predicate AnswerRows(answers: Answers, servers: nat) {
    |answers| == servers && forall c | 0 <= c < servers :: |answers[c]| == MAX_MR_SIZE_GB
  }

  /** The named slots are not in use on this side; see Agreement for why. */
  ghost predicate NamesFree(chunkMap: seq<seq<int>>, answers: Answers) {
    && AnswerRows(answers, |chunkMap|)
    && forall c, i | 0 <= c < |chunkMap| && 0 <= i < MAX_MR_SIZE_GB && i < |chunkMap[c]| && answers[c][i] :: chunkMap[c][i] == -1
  }

  /** The server has a slab for the bind. */
  ghost predicate CanAnswer(answers: Answers, c: nat) {
    c < |answers| && exists i :: 0 <= i < |answers[c]| && answers[c][i]
  }

  /** The index entry after server c has been asked for a slab. */
  ghost predicate Bound(index: int, c: nat, answers: Answers) {
    index == if CanAnswer(answers, c) then c else NO_CB_MAPPED
  }

  /** A slot changes only where its server has named it. */
  ghost predicate OnlyNamed(before: seq<seq<int>>, after: seq<seq<int>>, answers: Answers) {
    && |before| == |after| == |answers|
    && forall c, i | 0 <= c < |after| && 0 <= i < |after[c]| ::
         (i < |before[c]| && after[c][i] == before[c][i]) || (i < |answers[c]| && answers[c][i])
  }

  /** n distinct queried servers in descending order of free memory, none with less than one that was passed over. */
  ghost predicate BestServers(chosen: seq<nat>, queried: seq<nat>, reported: seq<int>, n: nat) {
    && |chosen| == n && Distinct(chosen)
    && (forall c | c in chosen :: c < |reported| && c in queried)
    && (forall i, j | 0 <= i < j < n :: chosen[i] < |reported| && chosen[j] < |reported| && reported[chosen[i]] >= reported[chosen[j]])
    && forall c, d | c in chosen && d in queried && d !in chosen ::
         c < |reported| && d < |reported| && reported[d] <= reported[c]
  }

  function StateAfter(state: CbState, bound: bool, queried: bool): CbState {
    if bound then Mapped else if queried && state == Idle then Connected else state
  }

  /** All states after an attempt. */
  function StatesAfter(states: seq<CbState>, ret: int, queried: seq<nat>, chosen: seq<nat>, n: nat): (states': seq<CbState>)
    ensures |states'| == |states|
  {
    seq(|states|, c requires 0 <= c < |states| =>
        StateAfter(states[c], ret == 0 && c in chosen, |queried| >= n && c in queried))
  }

  /** Whom an attempt asks and chooses, and when it goes on to bind: unless the n-th largest report is exactly 0. */
  ghost predicate MapOutcome(ret: int, queried: seq<nat>, chosen: seq<nat>, states: seq<CbState>, reported: seq<int>, n: nat)
    requires 1 <= n
  {
    && |reported| == |states| && (ret == 0 || ret == -1)
    && |queried| == (if |Available(states)| <= n + 1 then |Available(states)| else n + 1)
    && Distinct(queried) && (forall c | c in queried :: c < |states| && states[c] in {Idle, Connected, Mapped})
    && (|queried| < n ==> ret == -1)
    && (|queried| >= n ==>
          && BestServers(chosen, queried, reported, n)
          && chosen[n - 1] < |reported| && (ret == 0 <==> reported[chosen[n - 1]] != 0))
  }

  /** Chunks are only bound to servers that are idle, connected or mapped. */
  ghost predicate OnUsable(cbIndexMap: seq<int>, at: nat, n: nat, states: seq<CbState>) {
    forall s | at <= s < at + n && s < |cbIndexMap| && cbIndexMap[s] != NO_CB_MAPPED ::
      0 <= cbIndexMap[s] < |states| && states[cbIndexMap[s]] in {Idle, Connected, Mapped}
  }

  /** How the states move: chosen servers become mapped, other idle ones that were queried connected. */
  ghost predicate Moved(states: seq<CbState>, states': seq<CbState>, ret: int, queried: seq<nat>, chosen: seq<nat>, n: nat) {
    |states'| == |states| && forall c | 0 <= c < |states| ::
      states'[c] == if ret == 0 && c in chosen then Mapped
                    else if |queried| >= n && c in queried && states[c] == Idle then Connected else states[c]
  }

  /** Sends the n binds of a group, each to its own server, and takes in the answers. */
  method BindGroup(session: Session, states: seq<CbState>, selectChunk: nat, chosen: seq<nat>, answers: Answers)
    returns (states': seq<CbState>)
    requires session.Valid() && |session.chunkMap| == |states| && NamesFree(session.chunkMap, answers)
    requires forall c | 0 <= c < |session.chunkMap| :: |session.chunkMap[c]| == MAX_MR_SIZE_GB
    requires Distinct(chosen) && forall i | 0 <= i < |chosen| :: chosen[i] < |states|
    requires selectChunk + |chosen| <= |session.cbIndexMap|
    requires forall s | selectChunk <= s < selectChunk + |chosen| :: session.cbIndexMap[s] == NO_CB_MAPPED
    modifies session
    ensures session.Valid() && |session.chunkMap| == |states| == |states'| && old(session.history) <= session.history
    ensures |session.cbIndexMap| == |old(session.cbIndexMap)|
    ensures forall s | 0 <= s < |session.cbIndexMap| && !(selectChunk <= s < selectChunk + |chosen|) ::
              session.cbIndexMap[s] == old(session.cbIndexMap[s])
    ensures forall s | selectChunk <= s < selectChunk + |chosen| ::
              Bound(session.cbIndexMap[s], chosen[s - selectChunk], answers)
    ensures OnlyNamed(old(session.chunkMap), session.chunkMap, answers)
    ensures forall c | 0 <= c < |states| :: states'[c] == if c in chosen then Mapped else states[c]
  {
    hide Settled, History, OnlyNamed;
    states' := states;
    ghost var slots := session.chunkMap;
    NothingNamed(slots, answers);
    for i := 0 to |chosen|
      invariant session.Valid() && |session.chunkMap| == |states| == |states'| && old(session.history) <= session.history
      invariant |session.cbIndexMap| == |old(session.cbIndexMap)|
      invariant forall s | 0 <= s < |session.cbIndexMap| && !(selectChunk <= s < selectChunk + i) ::
        session.cbIndexMap[s] == old(session.cbIndexMap[s])
      invariant forall c | 0 <= c < |states| && c !in chosen[..i] :: session.chunkMap[c] == old(session.chunkMap[c])
      invariant forall s | selectChunk <= s < selectChunk + i :: Bound(session.cbIndexMap[s], chosen[s - selectChunk], answers)
      invariant OnlyNamed(slots, session.chunkMap, answers)
      invariant forall c | 0 <= c < |states| :: |session.chunkMap[c]| == MAX_MR_SIZE_GB
      invariant forall c | 0 <= c < |states| :: states'[c] == if c in chosen[..i] then Mapped else states[c]
    {
      var c := chosen[i];
      assert c !in chosen[..i];
      states' := states'[c := Mapped];
      ghost var before := session.chunkMap;
      var slot := session.SingleChunkInit(c, answers[c], selectChunk + i);
      if slot != -1 {
        OneNamed(slots, before, answers, c, slot, selectChunk + i);
      }
      assert slot != -1 <==> CanAnswer(answers, c);
      assert chosen[..i + 1] == chosen[..i] + [c];
    }
    assert chosen[..|chosen|] == chosen;
  }

  /** The first part of IS_single_chunk_map: selects, queries and sorts, and decides whether to go on to bind. */
  method ChooseServers(states: seq<CbState>, n: nat, random: seq<nat>, reported: seq<int>)
    returns (ret: int, states': seq<CbState>, queried: seq<nat>, chosen: seq<nat>)
    requires |states| == |reported| && 1 <= n && |random| == n + 1
    ensures MapOutcome(ret, queried, chosen, states, reported, n)
    ensures |queried| >= n ==> Accepts(queried, reported, n) == (ret == 0)
    ensures |states'| == |states|
    ensures forall c | 0 <= c < |states| :: states'[c] == StateAfter(states[c], false, |queried| >= n && c in queried)
    ensures |Available(states)| > n + 1 ==> Drawn(queried, Usable(states), random)
  {
    hide Available, Reports, Count, Above, Accepts, BestServers, Drawn;
    queried := SelectServers(states, n, random);
    chosen := [];
    if |queried| < n {
      return -1, states, queried, chosen;
    }
    var freeMem, servers;
    states', freeMem, servers := QueryFreeMem(states, queried, reported);
    SortFreeMem(freeMem, servers, n, reported);
    NamedServers(freeMem[..], servers[..], reported);
    chosen := Chosen(servers, n);
    TopAre(freeMem[..], servers[..], queried, chosen, reported, n);
    AcceptsIs(freeMem[..], queried, reported, n);
    ret := if freeMem[n - 1] == 0 then -1 else 0;
  }

  /** IS_single_chunk_map: chooses n servers for the n chunks from selectChunk on, and binds one chunk to each. */
  method SingleChunkMap(session: Session, states: seq<CbState>, selectChunk: nat, n: nat, random: seq<nat>,
                        reported: seq<int>, answers: Answers)
    returns (ret: int, states': seq<CbState>, queried: seq<nat>, chosen: seq<nat>)
    requires session.Valid() && |session.chunkMap| == |states| == |reported| && NamesFree(session.chunkMap, answers)
    requires 1 <= n && |random| == n + 1 && selectChunk + n <= |session.cbIndexMap|
    requires forall s | selectChunk <= s < selectChunk + n :: session.cbIndexMap[s] == NO_CB_MAPPED
    modifies session
    ensures session.Valid() && |session.chunkMap| == |states| && old(session.history) <= session.history
    ensures |session.cbIndexMap| == |old(session.cbIndexMap)|
    ensures MapOutcome(ret, queried, chosen, states, reported, n)
    ensures |queried| >= n ==> Accepts(queried, reported, n) == (ret == 0)
    ensures states' == StatesAfter(states, ret, queried, chosen, n)
    ensures ret == -1 ==> session.Now() == old(session.Now())
    ensures forall s | 0 <= s < |session.cbIndexMap| && !(selectChunk <= s < selectChunk + n) ::
              session.cbIndexMap[s] == old(session.cbIndexMap[s])
    ensures ret == 0 ==> |chosen| == n && forall s | selectChunk <= s < selectChunk + n ::
              Bound(session.cbIndexMap[s], chosen[s - selectChunk], answers)
    ensures OnlyNamed(old(session.chunkMap), session.chunkMap, answers)
    ensures |Available(states)| > n + 1 ==> Drawn(queried, Usable(states), random)
    ensures ret == 0 ==> OnUsable(session.cbIndexMap, selectChunk, n, states)
    ensures Moved(states, states', ret, queried, chosen, n)
  {
    hide Settled, History, MapOutcome, Accepts, NamesFree, OnlyNamed, Drawn, Available, CanAnswer;
    SlotCounts(session.Now());
    NothingNamed(session.chunkMap, answers);
    ret, states', queried, chosen := ChooseServers(states, n, random, reported);
    OutcomeShape(ret, queried, chosen, states, reported, n);
    if ret == 0 {
      OutcomeUsable(ret, queried, chosen, states, reported, n);
      states' := BindGroup(session, states', selectChunk, chosen, answers);
    }
    assert states' == StatesAfter(states, ret, queried, chosen, n);
  }

  lemma OneNamed(slots: seq<seq<int>>, before: seq<seq<int>>, answers: Answers, c: nat, i: nat, s: int)
    requires OnlyNamed(slots, before, answers) && c < |before| && i < |before[c]| && i < |answers[c]| && answers[c][i]
    ensures OnlyNamed(slots, before[c := before[c][i := s]], answers)
  {
    var after := before[c := before[c][i := s]];
    forall d, h | 0 <= d < |after| && 0 <= h < |after[d]|
      ensures (h < |slots[d]| && after[d][h] == slots[d][h]) || (h < |answers[d]| && answers[d][h])
    {
      if d == c && h == i {
        assert after[d][h] == s;
      } else {
        assert after[d][h] == before[d][h];
      }
    }
    assert OnlyNamed(slots, after, answers);
  }

  lemma NothingNamed(chunkMap: seq<seq<int>>, answers: Answers)
    requires NamesFree(chunkMap, answers)
    ensures OnlyNamed(chunkMap, chunkMap, answers)
  {}

  lemma OutcomeShape(ret: int, queried: seq<nat>, chosen: seq<nat>, states: seq<CbState>, reported: seq<int>, n: nat)
    requires 1 <= n && MapOutcome(ret, queried, chosen, states, reported, n)
    ensures ret == 0 || ret == -1
    ensures ret == 0 ==> |queried| >= n && |chosen| == n && Distinct(chosen)
    ensures ret == 0 ==> forall i | 0 <= i < n :: chosen[i] < |states| && chosen[i] in queried
  {
    if ret == 0 {
      forall i | 0 <= i < n ensures chosen[i] < |states| && chosen[i] in queried {
        assert chosen[i] in chosen;
      }
    }
  }

  lemma OutcomeUsable(ret: int, queried: seq<nat>, chosen: seq<nat>, states: seq<CbState>, reported: seq<int>, n: nat)
    requires 1 <= n && MapOutcome(ret, queried, chosen, states, reported, n) && ret == 0
    ensures |chosen| == n && forall i | 0 <= i < n :: chosen[i] < |states| && states[chosen[i]] in {Idle, Connected, Mapped}
  {
    forall i | 0 <= i < n ensures chosen[i] < |states| && states[chosen[i]] in {Idle, Connected, Mapped} {
      assert chosen[i] in chosen;
    }
  }

  lemma SlotCounts(v: View)
    requires Settled(v)
    ensures forall c | 0 <= c < |v.chunkMap| :: |v.chunkMap[c]| == MAX_MR_SIZE_GB
  {}

  lemma NamedServers(mem: seq<int>, servers: seq<int>, reported: seq<int>)
    requires Reports(mem, servers, reported)
    ensures forall i | 0 <= i < |servers| :: 0 <= servers[i] < |reported|
  {}

  method Chosen(servers: array<int>, n: nat) returns (chosen: seq<nat>)
    requires n <= servers.Length && forall i | 0 <= i < n :: servers[i] >= 0
    ensures |chosen| == n && forall i | 0 <= i < n :: chosen[i] == servers[i]
  {
    chosen := [];
    for i := 0 to n
      invariant |chosen| == i && forall r | 0 <= r < i :: chosen[r] == servers[r]
    {
      chosen := chosen + [servers[i]];
    }
  }

  /** The first n servers of the sorted list are the best ones. */
  lemma TopAre(mem: seq<int>, servers: seq<int>, queried: seq<nat>, chosen: seq<nat>, reported: seq<int>, n: nat)
    requires Reports(mem, servers, reported) && Distinct(servers) && TopSorted(mem, n) && 1 <= n <= |mem|
    requires forall c :: c in servers <==> c in queried
    requires |chosen| == n && forall i | 0 <= i < n :: chosen[i] == servers[i]
    ensures BestServers(chosen, queried, reported, n)
    ensures chosen[n - 1] < |reported| && reported[chosen[n - 1]] == mem[n - 1]
  {
    forall c | c in chosen ensures c in queried && c < |reported| {
      var p :| 0 <= p < n && chosen[p] == c;
      assert servers[p] == c;
    }
    forall c, d | c in chosen && d in queried && d !in chosen ensures c < |reported| && d < |reported| && reported[d] <= reported[c] {
      assert d in servers;
      var q :| 0 <= q < |servers| && servers[q] == d;
      assert q >= n;
      var p :| 0 <= p < n && chosen[p] == c;
      assert mem[p] >= mem[q];
    }
  }

  // ---------- Reports that are not what they should be ----------

  /** How many of the queried servers report more than `bound`. */
  function Reporting(queried: seq<nat>, reported: seq<int>, bound: int): (n: nat)
    requires forall i | 0 <= i < |queried| :: queried[i] < |reported|
  {
    Count(Above(Memories(queried, reported), bound))
  }

  /** The test for free memory lets an attempt pass when n servers report some, and also when fewer than n report at
      least nothing. */
  ghost predicate Accepts(queried: seq<nat>, reported: seq<int>, n: nat) {
    && (forall i | 0 <= i < |queried| :: queried[i] < |reported|)
    && (Reporting(queried, reported, 0) >= n || Reporting(queried, reported, -1) < n)
  }

  lemma AcceptsIs(mem: seq<int>, queried: seq<nat>, reported: seq<int>, n: nat)
    requires TopSorted(mem, n) && 1 <= n <= |mem| && forall i | 0 <= i < |queried| :: queried[i] < |reported|
    requires forall bound: int :: Count(Above(mem, bound)) == Count(Above(Memories(queried, reported), bound))
    ensures Accepts(queried, reported, n) <==> mem[n - 1] != 0
  {
    hide Count, Above;
    NthLargest(mem, n, 0);
    NthLargest(mem, n, -1);
  }

  /** The chosen servers all have memory exactly when n of the queried ones report some. */
  lemma ChosenHaveMemory(chosen: seq<nat>, queried: seq<nat>, reported: seq<int>, n: nat)
    requires BestServers(chosen, queried, reported, n) && Distinct(queried)
    requires forall i | 0 <= i < |queried| :: queried[i] < |reported|
    ensures (forall c | c in chosen :: reported[c] > 0) <==> Reporting(queried, reported, 0) >= n
  {
    hide Count;
    var flags := Above(Memories(queried, reported), 0);
    var mine := seq(|queried|, i requires 0 <= i < |queried| => queried[i] in chosen);
    CountMembers(queried, chosen);
    if forall c | c in chosen :: reported[c] > 0 {
      CountContained(mine, flags);
    } else {
      var c :| c in chosen && reported[c] <= 0;
      var fewer := seq(|queried|, i requires 0 <= i < |queried| => queried[i] in chosen && queried[i] != c);
      assert c in queried;
      var p :| 0 <= p < |queried| && queried[p] == c;
      assert fewer == mine[p := false];
      CountUpdate(mine, p, false);
      forall i | 0 <= i < |queried| && flags[i] ensures fewer[i] {}
      CountContained(flags, fewer);
    }
  }

  /** Distinct elements of a list of distinct elements are found in it once each. */
  lemma {:induction false} CountMembers(list: seq<nat>, part: seq<nat>)
    requires Distinct(list) && Distinct(part) && forall c | c in part :: c in list
    ensures Count(seq(|list|, i requires 0 <= i < |list| => list[i] in part)) == |part|
    decreases |part|
  {
    hide Count;
    var flags := seq(|list|, i requires 0 <= i < |list| => list[i] in part);
    if part == [] {
      CountNone(flags);
    } else {
      var c := part[|part| - 1];
      var rest := part[..|part| - 1];
      CountMembers(list, rest);
      assert c in list;
      var p :| 0 <= p < |list| && list[p] == c;
      var fewer := seq(|list|, i requires 0 <= i < |list| => list[i] in rest);
      assert c !in rest;
      forall i | 0 <= i < |list| ensures flags[i] == fewer[p := true][i] {
        assert part == rest + [c];
      }
      assert flags == fewer[p := true];
      CountUpdate(fewer, p, true);
    }
  }

  /** While no report is negative, passing the test and having memory everywhere are the same. */
  lemma HonestReports(queried: seq<nat>, reported: seq<int>, n: nat)
    requires n <= |queried| && forall i | 0 <= i < |queried| :: queried[i] < |reported|
    requires forall c | 0 <= c < |reported| :: reported[c] >= 0
    ensures Accepts(queried, reported, n) <==> Reporting(queried, reported, 0) >= n
  {
    hide Count;
    CountFull(Above(Memories(queried, reported), -1));
  }

  /** A server that has been asked for more than it had reports less than nothing; the test lets it pass. */
  lemma NegativeReportPasses()
    ensures Accepts([0, 1], [5, -1], 2) && Reporting([0, 1], [5, -1], 0) < 2
  {
    var mem := Memories([0, 1], [5, -1]);
    CountStep(Above(mem, 0), 0);
    CountTail(Above(mem, 0), 1);
    CountTail(Above(mem, -1), 1);
    CountAtMost(Above(mem, 0), 1);
    CountAtMost(Above(mem, -1), 1);
  }

  // ---------- All groups of a device ----------

  /** What the servers and the random source answer during one attempt. */
  datatype Attempt = Attempt(random: seq<nat>, reported: seq<int>, answers: Answers)

  ghost predicate AttemptFits(a: Attempt, n: nat, servers: nat) {
    |a.random| == n + 1 && |a.reported| == servers && AnswerRows(a.answers, servers)
  }

  /** No server names the same slot in two answers: a slab that has been given away is not given again. */
  ghost predicate NeverTwice(attempts: seq<Attempt>) {
    forall t, u, c, i | 0 <= t < u < |attempts| && 0 <= c < |attempts[t].answers| && c < |attempts[u].answers|
                        && 0 <= i < |attempts[t].answers[c]| && i < |attempts[u].answers[c]| && attempts[t].answers[c][i] ::
      !attempts[u].answers[c][i]
  }

  /** Every slot in use has been named by one of the first n attempts. */
  ghost predicate UsedNamed(chunkMap: seq<seq<int>>, attempts: seq<Attempt>, n: nat)
    requires n <= |attempts|
  {
    forall c, i | 0 <= c < |chunkMap| && 0 <= i < |chunkMap[c]| && chunkMap[c][i] != -1 :: NamedBy(attempts, n, c, i)
  }

  ghost predicate NamedBy(attempts: seq<Attempt>, n: nat, c: nat, i: nat)
    requires n <= |attempts|
  {
    exists u :: 0 <= u < n && c < |attempts[u].answers| && i < |attempts[u].answers[c]| && attempts[u].answers[c][i]
  }

  /** So the next attempt names free slots, */
  lemma NextNamesFree(chunkMap: seq<seq<int>>, attempts: seq<Attempt>, n: nat)
    requires n < |attempts| && NeverTwice(attempts) && UsedNamed(chunkMap, attempts, n)
    requires AnswerRows(attempts[n].answers, |chunkMap|)
    ensures NamesFree(chunkMap, attempts[n].answers)
  {
    var answers := attempts[n].answers;
    forall c, i | 0 <= c < |chunkMap| && 0 <= i < MAX_MR_SIZE_GB && i < |chunkMap[c]| && answers[c][i]
      ensures chunkMap[c][i] == -1
    {
      assert !NamedBy(attempts, n, c, i);
    }
  }

  /** and takes none but those. */
  lemma UsedStep(before: seq<seq<int>>, after: seq<seq<int>>, attempts: seq<Attempt>, n: nat)
    requires n < |attempts| && UsedNamed(before, attempts, n) && OnlyNamed(before, after, attempts[n].answers)
    ensures UsedNamed(after, attempts, n + 1)
  {
    forall c, i | 0 <= c < |after| && 0 <= i < |after[c]| && after[c][i] != -1 ensures NamedBy(attempts, n + 1, c, i) {
      if i < |before[c]| && after[c][i] == before[c][i] {
        assert NamedBy(attempts, n, c, i);
      } else {
        assert attempts[n].answers[c][i];
      }
    }
  }

  /** At the start nothing is in use. */
  lemma NothingUsed(v: View, attempts: seq<Attempt>)
    requires Settled(v) && forall s | 0 <= s < |v.cbIndexMap| :: v.cbIndexMap[s] == NO_CB_MAPPED
    ensures UsedNamed(v.chunkMap, attempts, 0)
  {
    forall c, i | 0 <= c < |v.chunkMap| && 0 <= i < |v.chunkMap[c]| ensures v.chunkMap[c][i] == -1 {}
  }

  /** What an attempt has done: for the chunks from `at` on, with these states. */
  datatype Try = Try(ret: int, at: nat, before: seq<CbState>, queried: seq<nat>, chosen: seq<nat>)

  function NextAt(t: Try, n: nat): nat {
    if t.ret == 0 then t.at + n else t.at
  }

  /** The attempts one after the other, from the first chunk and the states at the start on. */
  ghost predicate Tries(tries: seq<Try>, attempts: seq<Attempt>, n: nat, states: seq<CbState>, states': seq<CbState>, placed: nat)
    requires 1 <= n
  {
    && |tries| <= |attempts|
    && (forall t | 0 <= t < |tries| ::
          MapOutcome(tries[t].ret, tries[t].queried, tries[t].chosen, tries[t].before, attempts[t].reported, n))
    && (tries == [] ==> states' == states && placed == 0)
    && (tries != [] ==>
          && tries[0].before == states && tries[0].at == 0
          && states' == After(tries[|tries| - 1], n) && placed == NextAt(tries[|tries| - 1], n))
    && forall t | 0 < t < |tries| :: tries[t].before == After(tries[t - 1], n) && tries[t].at == NextAt(tries[t - 1], n)
  }

  function After(t: Try, n: nat): seq<CbState> {
    StatesAfter(t.before, t.ret, t.queried, t.chosen, n)
  }

  lemma OneMoreTry(tries: seq<Try>, attempts: seq<Attempt>, n: nat, states: seq<CbState>, states': seq<CbState>, placed: nat,
                   t: Try)
    requires 1 <= n && Tries(tries, attempts, n, states, states', placed) && |tries| < |attempts|
    requires MapOutcome(t.ret, t.queried, t.chosen, t.before, attempts[|tries|].reported, n)
    requires t.before == states' && t.at == placed
    ensures Tries(tries + [t], attempts, n, states, After(t, n), NextAt(t, n))
  {
    hide MapOutcome, After;
  }

  /** What a successful attempt leaves in the index: each chunk with its own server, if that server had a slab for it. */
  ghost predicate GroupBound(cbIndexMap: seq<int>, t: Try, answers: Answers, n: nat) {
    && t.at + n <= |cbIndexMap| && |t.chosen| == n
    && forall s | t.at <= s < t.at + n :: Bound(cbIndexMap[s], t.chosen[s - t.at], answers)
  }

  ghost predicate GroupsBound(cbIndexMap: seq<int>, tries: seq<Try>, attempts: seq<Attempt>, n: nat)
    requires |tries| <= |attempts|
  {
    forall t | 0 <= t < |tries| && tries[t].ret == 0 :: GroupBound(cbIndexMap, tries[t], attempts[t].answers, n)
  }

  lemma GroupBoundKept(cbIndexMap: seq<int>, cbIndexMap': seq<int>, t: Try, answers: Answers, n: nat)
    requires GroupBound(cbIndexMap, t, answers, n) && |cbIndexMap| == |cbIndexMap'|
    requires forall s | t.at <= s < t.at + n :: cbIndexMap[s] == cbIndexMap'[s]
    ensures GroupBound(cbIndexMap', t, answers, n)
  {
    hide Bound;
  }

  /** Every chunk below `placed` belongs to a successful attempt. */
  ghost predicate Covered(tries: seq<Try>, placed: nat, n: nat) {
    && (forall t | 0 <= t < |tries| && tries[t].ret == 0 :: tries[t].at + n <= placed)
    && forall s | 0 <= s < placed :: Placed(tries, n, s)
  }

  ghost predicate Placed(tries: seq<Try>, n: nat, s: nat) {
    exists t :: 0 <= t < |tries| && tries[t].ret == 0 && tries[t].at <= s < tries[t].at + n
  }

  lemma CoveredStep(tries: seq<Try>, placed: nat, n: nat, t: Try)
    requires Covered(tries, placed, n) && t.at == placed
    ensures Covered(tries + [t], NextAt(t, n), n)
  {
    var more := tries + [t];
    forall s | 0 <= s < NextAt(t, n) ensures Placed(more, n, s) {
      if s < placed {
        assert Placed(tries, n, s);
        var u :| 0 <= u < |tries| && tries[u].ret == 0 && tries[u].at <= s < tries[u].at + n;
        assert more[u] == tries[u];
      } else {
        assert more[|tries|] == t;
      }
    }
  }

  /** Every server that was chosen had a slab for its bind. */
  ghost predicate AllAnswered(tries: seq<Try>, attempts: seq<Attempt>)
    requires |tries| <= |attempts|
  {
    forall t, c | 0 <= t < |tries| && tries[t].ret == 0 && c in tries[t].chosen :: CanAnswer(attempts[t].answers, c)
  }

  /** If every bind is answered with a slab, every chunk of the placed groups is mapped. */
  lemma AnsweredIsMapped(cbIndexMap: seq<int>, tries: seq<Try>, attempts: seq<Attempt>, placed: nat, n: nat)
    requires |tries| <= |attempts| && placed <= |cbIndexMap|
    requires GroupsBound(cbIndexMap, tries, attempts, n) && Covered(tries, placed, n)
    requires AllAnswered(tries, attempts)
    ensures forall s | 0 <= s < placed :: cbIndexMap[s] != NO_CB_MAPPED
  {
    hide CanAnswer;
    forall s | 0 <= s < placed ensures cbIndexMap[s] != NO_CB_MAPPED {
      assert Placed(tries, n, s);
      var t :| 0 <= t < |tries| && tries[t].ret == 0 && tries[t].at <= s < tries[t].at + n;
      assert GroupBound(cbIndexMap, tries[t], attempts[t].answers, n);
      assert Bound(cbIndexMap[s], tries[t].chosen[s - tries[t].at], attempts[t].answers);
      assert tries[t].chosen[s - tries[t].at] in tries[t].chosen;
    }
  }

  /** No server holds two chunks of the group that starts at chunk `at`. */
  ghost predicate GroupApart(cbIndexMap: seq<int>, at: nat, n: nat)
    requires at + n <= |cbIndexMap|
  {
    forall i, j | at <= i < j < at + n && cbIndexMap[i] != NO_CB_MAPPED :: cbIndexMap[i] != cbIndexMap[j]
  }

  /** The chunks below `upTo` form whole groups of n, each on distinct servers. */
  ghost predicate GroupsApart(cbIndexMap: seq<int>, upTo: nat, n: nat)
    requires upTo <= |cbIndexMap| && n > 0
  {
    upTo == 0 || (upTo >= n && GroupApart(cbIndexMap, upTo - n, n) && GroupsApart(cbIndexMap, upTo - n, n))
  }

  lemma {:induction false} GroupsKept(before: seq<int>, after: seq<int>, upTo: nat, n: nat)
    requires upTo <= |before| == |after| && n > 0 && GroupsApart(before, upTo, n)
    requires forall s | 0 <= s < upTo :: before[s] == after[s]
    ensures GroupsApart(after, upTo, n)
  {
    if upTo == 0 {
    } else {
      GroupsKept(before, after, upTo - n, n);
    }
  }

  /** There are enough available servers, and each always has memory left. */
  ghost predicate Plenty(states: seq<CbState>, attempts: seq<Attempt>, n: nat) {
    && n <= |Available(states)|
    && forall t, c | 0 <= t < |attempts| && 0 <= c < |attempts[t].reported| :: attempts[t].reported[c] > 0
  }

  /** One call of IS_single_chunk_map, as rdma_trigger makes it for the group at `at`. */
  method OneAttempt(session: Session, states: seq<CbState>, at: nat, n: nat, a: Attempt, ghost start: seq<CbState>)
    returns (states': seq<CbState>, ghost t: Try, ret: int)
    requires session.Valid() && |session.chunkMap| == |states| && 1 <= n && AttemptFits(a, n, |states|)
    requires NamesFree(session.chunkMap, a.answers)
    requires at + n <= |session.cbIndexMap| && forall s | at <= s < at + n :: session.cbIndexMap[s] == NO_CB_MAPPED
    requires GroupsApart(session.cbIndexMap, at, n) && OnAvailable(session.cbIndexMap, at, start)
    requires Barred(states) == Barred(start)
    modifies session
    ensures session.Valid() && |session.chunkMap| == |states| == |states'| && old(session.history) <= session.history
    ensures t.ret == ret && t.at == at && t.before == states && states' == After(t, n)
    ensures MapOutcome(ret, t.queried, t.chosen, states, a.reported, n) && (ret == 0 || ret == -1)
    ensures |session.cbIndexMap| == |old(session.cbIndexMap)|
    ensures forall s | 0 <= s < |session.cbIndexMap| && !(at <= s < NextAt(t, n)) ::
              session.cbIndexMap[s] == old(session.cbIndexMap[s])
    ensures ret == 0 ==> GroupBound(session.cbIndexMap, t, a.answers, n)
    ensures OnlyNamed(old(session.chunkMap), session.chunkMap, a.answers)
    ensures GroupsApart(session.cbIndexMap, NextAt(t, n), n) && OnAvailable(session.cbIndexMap, NextAt(t, n), start)
    ensures Barred(states') == Barred(start)
  {
    hide Settled, History, MapOutcome, StatesAfter, NamesFree, OnlyNamed, Accepts, GroupBound, Bound, Barred, OnAvailable;
    hide GroupApart, OnUsable, Moved, Drawn;
    ghost var before := session.cbIndexMap;
    var queried, chosen;
    ret, states', queried, chosen := SingleChunkMap(session, states, at, n, a.random, a.reported, a.answers);
    t := Try(ret, at, states, queried, chosen);
    OutcomeShape(ret, queried, chosen, states, a.reported, n);
    OutcomeBarred(ret, queried, chosen, states, a.reported, n);
    if ret == 0 {
      OutcomeAvailable(ret, queried, chosen, states, a.reported, n);
      NewGroupBound(session.cbIndexMap, t, a.answers, n);
      NewGroupApart(session.cbIndexMap, a.answers, at, n, chosen, start, states);
      AvailableKept(before, session.cbIndexMap, at, n, start);
      GroupsKept(before, session.cbIndexMap, at, n);
    }
  }

  /** rdma_trigger, as long as attempts last: a group is tried again until its placement succeeds. The ghost result says
      what each attempt found and did. */
  method RdmaTrigger(session: Session, states: seq<CbState>, n: nat, attempts: seq<Attempt>)
    returns (states': seq<CbState>, placed: nat, ghost tries: seq<Try>)
    requires session.Valid() && |session.chunkMap| == |states| && 1 <= n && |session.cbIndexMap| % n == 0
    requires forall s | 0 <= s < |session.cbIndexMap| :: session.cbIndexMap[s] == NO_CB_MAPPED
    requires NeverTwice(attempts) && forall t | 0 <= t < |attempts| :: AttemptFits(attempts[t], n, |states|)
    modifies session
    ensures session.Valid() && placed <= |session.cbIndexMap| == |old(session.cbIndexMap)|
    ensures Tries(tries, attempts, n, states, states', placed)
    ensures placed == |session.cbIndexMap| || |tries| == |attempts|
    ensures GroupsBound(session.cbIndexMap, tries, attempts, n) && Covered(tries, placed, n)
    ensures AllAnswered(tries, attempts) ==> forall s | 0 <= s < placed :: session.cbIndexMap[s] != NO_CB_MAPPED
    ensures forall s | placed <= s < |session.cbIndexMap| :: session.cbIndexMap[s] == NO_CB_MAPPED
    ensures GroupsApart(session.cbIndexMap, placed, n) && OnAvailable(session.cbIndexMap, placed, states)
    ensures Plenty(states, attempts, n) && |attempts| * n >= |session.cbIndexMap| ==> placed == |session.cbIndexMap|
    ensures forall s | 0 <= s < placed && session.cbIndexMap[s] != NO_CB_MAPPED ::
              && 0 <= session.cbIndexMap[s] < |states|
              && states[session.cbIndexMap[s]] != Evicting && states[session.cbIndexMap[s]] != Fail
  {
    hide Settled, History, CanAnswer, Available, MapOutcome, Tries, Covered, After, GroupBound, Plenty;
    hide NamesFree, UsedNamed, NeverTwice, OnlyNamed, Bound, Barred, Unavailable, OnAvailable, GroupsApart, GroupsBound;
    hide AllAnswered;
    ghost var plenty := Plenty(states, attempts, n);
    states', placed, tries := states, 0, [];
    NoTries(attempts, n, states);
    NothingPlaced(session.cbIndexMap, n);
    NothingUsed(session.Now(), attempts);
    var t := 0;
    while placed < |session.cbIndexMap| && t < |attempts|
      invariant session.Valid() && |session.chunkMap| == |states'| == |states| && t == |tries| <= |attempts|
      invariant UsedNamed(session.chunkMap, attempts, t)
      invariant placed <= |session.cbIndexMap| == |old(session.cbIndexMap)| && placed % n == 0
      invariant Tries(tries, attempts, n, states, states', placed) && Covered(tries, placed, n)
      invariant GroupsBound(session.cbIndexMap, tries, attempts, n)
      invariant GroupsApart(session.cbIndexMap, placed, n) && OnAvailable(session.cbIndexMap, placed, states)
      invariant forall s | placed <= s < |session.cbIndexMap| :: session.cbIndexMap[s] == NO_CB_MAPPED
      invariant Barred(states') == Barred(states) && (plenty ==> placed == t * n)
      decreases |attempts| - t
    {
      RoomForGroup(placed, |session.cbIndexMap|, n);
      ghost var before, slots, earlier := session.cbIndexMap, session.chunkMap, states';
      NextNamesFree(slots, attempts, t);
      ghost var tr;
      var ret;
      states', tr, ret := OneAttempt(session, states', placed, n, attempts[t], states);
      UsedStep(slots, session.chunkMap, attempts, t);
      GroupsKeptBound(before, session.cbIndexMap, tries, attempts, placed, n);
      GroupsBoundStep(session.cbIndexMap, tries, attempts, tr, n);
      OneMoreTry(tries, attempts, n, states, earlier, placed, tr);
      CoveredStep(tries, placed, n, tr);
      if plenty {
        PlentySucceeds(attempts, t, ret, tr.queried, tr.chosen, states, earlier, n);
      }
      assert (t + 1) * n == t * n + n;
      tries, t := tries + [tr], t + 1;
      if ret == 0 {
        placed := placed + n;
      }
    }
    AvailableNow(session.cbIndexMap, placed, states);
    if AllAnswered(tries, attempts) {
      AnsweredIsMapped(session.cbIndexMap, tries, attempts, placed, n);
    }
  }

  lemma PlentySucceeds(attempts: seq<Attempt>, t: nat, ret: int, queried: seq<nat>, chosen: seq<nat>,
                       states: seq<CbState>, earlier: seq<CbState>, n: nat)
    requires 1 <= n && Plenty(states, attempts, n) && t < |attempts|
    requires |states| == |earlier| && Barred(states) == Barred(earlier)
    requires MapOutcome(ret, queried, chosen, earlier, attempts[t].reported, n)
    ensures ret == 0
  {
    SameAvailable(states, earlier);
    MemoryEverywhere(ret, queried, chosen, earlier, attempts[t].reported, n);
  }

  lemma NothingPlaced(cbIndexMap: seq<int>, n: nat)
    requires 1 <= n
    ensures GroupsApart(cbIndexMap, 0, n)
  {}

  lemma NoTries(attempts: seq<Attempt>, n: nat, states: seq<CbState>)
    requires 1 <= n
    ensures Tries([], attempts, n, states, states, 0) && Covered([], 0, n)
    ensures forall cbIndexMap: seq<int> :: GroupsBound(cbIndexMap, [], attempts, n)
    ensures forall cbIndexMap: seq<int> :: OnAvailable(cbIndexMap, 0, states)
  {}

  lemma GroupsBoundStep(cbIndexMap: seq<int>, tries: seq<Try>, attempts: seq<Attempt>, t: Try, n: nat)
    requires |tries| < |attempts| && GroupsBound(cbIndexMap, tries, attempts, n)
    requires t.ret == 0 ==> GroupBound(cbIndexMap, t, attempts[|tries|].answers, n)
    ensures GroupsBound(cbIndexMap, tries + [t], attempts, n)
  {
    hide GroupBound;
  }

  lemma GroupsKeptBound(cbIndexMap: seq<int>, cbIndexMap': seq<int>, tries: seq<Try>, attempts: seq<Attempt>, placed: nat, n: nat)
    requires |tries| <= |attempts| && GroupsBound(cbIndexMap, tries, attempts, n) && Covered(tries, placed, n)
    requires |cbIndexMap| == |cbIndexMap'| && placed <= |cbIndexMap|
    requires forall s | 0 <= s < placed :: cbIndexMap[s] == cbIndexMap'[s]
    ensures GroupsBound(cbIndexMap', tries, attempts, n)
  {
    hide GroupBound;
    forall t | 0 <= t < |tries| && tries[t].ret == 0 ensures GroupBound(cbIndexMap', tries[t], attempts[t].answers, n) {
      GroupBoundKept(cbIndexMap, cbIndexMap', tries[t], attempts[t].answers, n);
    }
  }

  lemma NewGroupBound(cbIndexMap: seq<int>, t: Try, answers: Answers, n: nat)
    requires t.at + n <= |cbIndexMap| && |t.chosen| == n
    requires forall s | t.at <= s < t.at + n :: Bound(cbIndexMap[s], t.chosen[s - t.at], answers)
    ensures GroupBound(cbIndexMap, t, answers, n)
  {
    hide Bound;
  }

  /** A group that has just been bound sits on distinct available servers. */
  lemma NewGroupApart(cbIndexMap: seq<int>, answers: Answers, at: nat, n: nat, chosen: seq<nat>,
                      states: seq<CbState>, earlier: seq<CbState>)
    requires at + n <= |cbIndexMap| && |chosen| == n && Distinct(chosen)
    requires forall s | at <= s < at + n :: Bound(cbIndexMap[s], chosen[s - at], answers)
    requires |states| == |earlier| && Barred(states) == Barred(earlier)
    requires forall i | 0 <= i < n :: chosen[i] < |earlier| && !Unavailable(earlier[chosen[i]])
    ensures GroupApart(cbIndexMap, at, n)
    ensures forall s | at <= s < at + n && cbIndexMap[s] != NO_CB_MAPPED ::
              0 <= cbIndexMap[s] < |states| && !Unavailable(states[cbIndexMap[s]])
  {
    hide CanAnswer;
    forall s | at <= s < at + n && cbIndexMap[s] != NO_CB_MAPPED
      ensures cbIndexMap[s] == chosen[s - at] && cbIndexMap[s] < |states| && !Unavailable(states[cbIndexMap[s]])
    {
      assert Bound(cbIndexMap[s], chosen[s - at], answers);
      assert Barred(states)[chosen[s - at]] == Barred(earlier)[chosen[s - at]];
    }
  }

  lemma AvailableKept(before: seq<int>, after: seq<int>, placed: nat, n: nat, states: seq<CbState>)
    requires OnAvailable(before, placed, states) && |before| == |after| && placed + n <= |after|
    requires forall s | 0 <= s < placed :: before[s] == after[s]
    requires forall s | placed <= s < placed + n && after[s] != NO_CB_MAPPED ::
               0 <= after[s] < |states| && !Unavailable(states[after[s]])
    ensures OnAvailable(after, placed + n, states)
  {}

  lemma OutcomeAvailable(ret: int, queried: seq<nat>, chosen: seq<nat>, states: seq<CbState>, reported: seq<int>, n: nat)
    requires 1 <= n && MapOutcome(ret, queried, chosen, states, reported, n) && ret == 0
    ensures |chosen| == n && Distinct(chosen)
    ensures forall i | 0 <= i < n :: chosen[i] < |states| && !Unavailable(states[chosen[i]])
  {
    forall i | 0 <= i < n ensures chosen[i] < |states| && !Unavailable(states[chosen[i]]) {
      assert chosen[i] in chosen;
    }
  }

  /** No attempt makes a server unavailable. */
  lemma OutcomeBarred(ret: int, queried: seq<nat>, chosen: seq<nat>, states: seq<CbState>, reported: seq<int>, n: nat)
    requires 1 <= n && MapOutcome(ret, queried, chosen, states, reported, n)
    ensures Barred(StatesAfter(states, ret, queried, chosen, n)) == Barred(states)
  {
    var after := StatesAfter(states, ret, queried, chosen, n);
    forall c | 0 <= c < |states| ensures Barred(after)[c] == Barred(states)[c] {
      if ret == 0 && c in chosen {
        assert c in queried;
      }
    }
  }

  /** Each mapped chunk below `upTo` sits on a server that was neither evicting nor failed. */
  ghost predicate OnAvailable(cbIndexMap: seq<int>, upTo: nat, states: seq<CbState>) {
    forall s | 0 <= s < upTo && s < |cbIndexMap| && cbIndexMap[s] != NO_CB_MAPPED ::
      0 <= cbIndexMap[s] < |states| && states[cbIndexMap[s]] in {Idle, Connected, Mapped}
  }

  lemma AvailableNow(cbIndexMap: seq<int>, upTo: nat, states: seq<CbState>)
    requires OnAvailable(cbIndexMap, upTo, states)
    ensures forall s | 0 <= s < upTo && s < |cbIndexMap| && cbIndexMap[s] != NO_CB_MAPPED ::
              0 <= cbIndexMap[s] < |states| && states[cbIndexMap[s]] != Evicting && states[cbIndexMap[s]] != Fail
  {}

  lemma SameAvailable(a: seq<CbState>, b: seq<CbState>)
    requires |a| == |b| && Barred(a) == Barred(b)
    ensures Available(a) == Available(b)
  {}

  /** With memory everywhere and enough servers an attempt cannot fail. */
  lemma MemoryEverywhere(ret: int, queried: seq<nat>, chosen: seq<nat>, states: seq<CbState>, reported: seq<int>, n: nat)
    requires 1 <= n <= |Available(states)| && MapOutcome(ret, queried, chosen, states, reported, n)
    requires forall c | 0 <= c < |reported| :: reported[c] > 0
    ensures ret == 0
  {
    hide Available;
    assert chosen[n - 1] in chosen;
  }

  lemma RoomForGroup(at: nat, size: nat, n: nat)
    requires n > 0 && at % n == 0 && size % n == 0 && at < size
    ensures at + n <= size && (at + n) % n == 0
  {
    var a, b := at / n, size / n;
    ProductSign(b - a - 1, n);
    assert (b - a - 1) * n == size - at - n;
    assert (a + 1) * n == at + n;
    MultipleDivides(a + 1, n);
  }
}
