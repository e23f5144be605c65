/** From an empty session to reads and writes: placement, device and runs put together. */
module System {
  import opened Matrices
  import opened SlabMap
  import opened ShardStore
  import opened BlockDevice
  import opened DeviceRuns
  import Counting
  import P = Placement

  /** Every server can answer a bind. */
  ghost predicate Stocked(answers: P.Answers, servers: nat) {
    forall c | 0 <= c < servers :: P.CanAnswer(answers, c)
  }

  /** There are enough available servers, each with memory and a slab. */
  ghost predicate Supplied(states: seq<CbState>, attempt: P.Attempt, m: nat) {
    && m <= |P.Available(states)| && Stocked(attempt.answers, |states|)
    && forall c | 0 <= c < |attempt.reported| :: attempt.reported[c] > 0
  }

  /** A freshly bound group is what a device needs: distinct live servers. */
  lemma BoundGroup(cbIndexMap: seq<int>, answers: P.Answers, chosen: seq<nat>, states: seq<CbState>, m: nat)
    requires |cbIndexMap| == m == |chosen| && Distinct(chosen) && forall i | 0 <= i < m :: chosen[i] < |states|
    requires forall s | 0 <= s < m :: P.Bound(cbIndexMap[s], chosen[s], answers)
    requires forall i | 0 <= i < m :: states[chosen[i]] == Mapped
    ensures DistinctServers(cbIndexMap) && LiveServers(cbIndexMap, states)
    ensures (forall s | 0 <= s < m :: cbIndexMap[s] != NO_CB_MAPPED) <==> forall i | 0 <= i < m :: P.CanAnswer(answers, chosen[i])
    ensures forall s | 0 <= s < m && cbIndexMap[s] != NO_CB_MAPPED :: cbIndexMap[s] == chosen[s]
  {
    hide P.CanAnswer;
    forall s | 0 <= s < m ensures cbIndexMap[s] == if P.CanAnswer(answers, chosen[s]) then chosen[s] else NO_CB_MAPPED {
      assert P.Bound(cbIndexMap[s], chosen[s], answers);
    }
  }

  /** The states of the chosen servers after a successful attempt. */
  lemma ChosenMapped(ret: int, queried: seq<nat>, chosen: seq<nat>, states: seq<CbState>, reported: seq<int>, n: nat)
    requires 1 <= n && P.MapOutcome(ret, queried, chosen, states, reported, n) && ret == 0
    ensures |chosen| == n && Distinct(chosen)
    ensures forall i | 0 <= i < n ::
              chosen[i] < |states| && P.StatesAfter(states, ret, queried, chosen, n)[chosen[i]] == Mapped
  {
    forall i | 0 <= i < n
      ensures chosen[i] < |states| && P.StatesAfter(states, ret, queried, chosen, n)[chosen[i]] == Mapped
    {
      assert chosen[i] in chosen;
    }
  }

  method AllChunksMapped(cbIndexMap: seq<int>) returns (all: bool)
    ensures all <==> forall s | 0 <= s < |cbIndexMap| :: cbIndexMap[s] != NO_CB_MAPPED
  {
    all := true;
    for s := 0 to |cbIndexMap|
      invariant all <==> forall r | 0 <= r < s :: cbIndexMap[r] != NO_CB_MAPPED
    {
      all := all && cbIndexMap[s] != NO_CB_MAPPED;
    }
  }

  /** One coding group on an empty session. It is placed exactly when the attempt succeeds and every bind is answered, each
      chunk on its own server; and that is so when there are enough available servers with memory and slabs. */
  method PlaceGroup(m: nat, states: seq<CbState>, attempt: P.Attempt)
    returns (placed: bool, session: Session, states': seq<CbState>, ghost ret: int, ghost queried: seq<nat>, ghost chosen: seq<nat>)
    requires 1 <= m && P.AttemptFits(attempt, m, |states|)
    ensures fresh(session) && session.Valid() && |session.cbIndexMap| == m && |session.chunkMap| == |states'| == |states|
    ensures placed ==> DistinctServers(session.cbIndexMap) && LiveServers(session.cbIndexMap, states')
    ensures P.MapOutcome(ret, queried, chosen, states, attempt.reported, m) && (ret == 0 ==> |chosen| == m)
    ensures placed <==> ret == 0 && forall i | 0 <= i < m :: P.CanAnswer(attempt.answers, chosen[i])
    ensures placed ==> forall s | 0 <= s < m :: session.cbIndexMap[s] == chosen[s]
    ensures Supplied(states, attempt, m) ==> placed
  {
    hide Settled, History, P.MapOutcome, P.StatesAfter, P.Bound, P.NamesFree, P.OnlyNamed, P.Accepts, P.Available, P.CanAnswer;
    hide LiveServers, DistinctServers, Stocked, Supplied, Counting.Drawn, P.OnUsable, P.Moved;
    session := new Session(m, |states|);
    AllNamesFree(session.chunkMap, attempt.answers);
    var outcome, asked, servers;
    outcome, states', asked, servers :=
      P.SingleChunkMap(session, states, 0, m, attempt.random, attempt.reported, attempt.answers);
    ret, queried, chosen := outcome, asked, servers;
    if Supplied(states, attempt, m) {
      SuppliedSucceeds(states, attempt, m, ret, queried, chosen);
    }
    if outcome != 0 {
      placed := false;
      return;
    }
    ChosenMapped(ret, queried, chosen, states, attempt.reported, m);
    BoundGroup(session.cbIndexMap, attempt.answers, chosen, states', m);
    placed := AllChunksMapped(session.cbIndexMap);
  }

  /** Every read is right while the tables of its moment make it readable, and after which ops they do. */
  ghost predicate RightReads(start: Outlook, ops: seq<Op>, results: seq<Vector>, l: Layout)
    requires |start.slots| == |start.cbIndex| == |start.inErr| == l.m && l.k <= l.m
  {
    |results| == |ops| && forall n | 0 <= n < |ops| && ops[n].ReadOp? ::
      (Losses(ops[..n]) <= l.m - l.k && Rebuilt(start, ops[..n], l.k) ==> Readable(AfterAll(start, ops[..n], l.k), l.k))
      && (Readable(AfterAll(start, ops[..n], l.k), l.k) ==> Answers(ops[..n], ops[n], results[n], l.k * l.w))
  }

  /** Placement, device and run: once the group is placed, every read returns the last byte written at each of its
      addresses whenever the tables of its moment make it readable. That is so after any m - k disconnects and evictions,
      as long as a disconnect of a server with a mapped slab comes after the last eviction. */
  method PlaceAndRun(l: Layout, states: seq<CbState>, attempt: P.Attempt, memory: Memory, ops: seq<Op>)
    returns (ran: bool, results: seq<Vector>, ghost start: Outlook, ghost ret: int, ghost queried: seq<nat>,
             ghost chosen: seq<nat>)
    requires 1 <= l.k <= l.m <= 256 && l.w > 0 && l.pages > 0 && l.servers == |states|
    requires |memory| == |states| && IsMemory(memory, |memory|, l.pages * l.w) && P.AttemptFits(attempt, l.m, |states|)
    requires forall n | 0 <= n < |ops| :: DeviceRuns.Fits(ops[n], l)
    ensures P.MapOutcome(ret, queried, chosen, states, attempt.reported, l.m) && (ret == 0 ==> |chosen| == l.m)
    ensures ran <==> ret == 0 && forall i | 0 <= i < l.m :: P.CanAnswer(attempt.answers, chosen[i])
    ensures |start.slots| == |start.cbIndex| == |start.inErr| == l.m
    ensures ran ==> forall s | 0 <= s < l.m :: start.cbIndex[s] == chosen[s] && !start.inErr[s]
    ensures ran ==> RightReads(start, ops, results, l)
    ensures Supplied(states, attempt, l.m) ==> ran
  {
    hide Settled, History, IsMemory, Answers, DeviceRuns.Fits, Losses, Rebuilt, Readable, AfterAll;
    hide LiveServers, DistinctServers, Supplied, P.AttemptFits, P.MapOutcome, P.CanAnswer;
    var session, states';
    ran, session, states', ret, queried, chosen := PlaceGroup(l.m, states, attempt);
    results, start := [], Outlook(seq(l.m, _ => 0), seq(l.m, _ => 0), [], seq(l.m, _ => false));
    if ran {
      var dev := new Device(l.k, l.m, l.w, l.pages, session, states', memory);
      start := dev.Now();
      TablesMatch(session.Now());
      forall n | 0 <= n < |ops| && Losses(ops[..n]) <= l.m - l.k && Rebuilt(start, ops[..n], l.k)
        ensures Readable(AfterAll(start, ops[..n], l.k), l.k)
      {
        ReadableThroughout(start, ops[..n], l.k);
      }
      results := RunOps(dev, ops, l);
    }
  }

  lemma SuppliedSucceeds(states: seq<CbState>, attempt: P.Attempt, m: nat, ret: int, queried: seq<nat>, chosen: seq<nat>)
    requires 1 <= m && Supplied(states, attempt, m) && P.MapOutcome(ret, queried, chosen, states, attempt.reported, m)
    ensures ret == 0 && |chosen| == m && forall i | 0 <= i < m :: P.CanAnswer(attempt.answers, chosen[i])
  {
    hide P.CanAnswer, P.Available;
    P.MemoryEverywhere(ret, queried, chosen, states, attempt.reported, m);
    ChosenMapped(ret, queried, chosen, states, attempt.reported, m);
    StockedAnswers(attempt.answers, |states|, chosen);
  }

  lemma StockedAnswers(answers: P.Answers, servers: nat, chosen: seq<nat>)
    requires Stocked(answers, servers) && forall i | 0 <= i < |chosen| :: chosen[i] < servers
    ensures forall i | 0 <= i < |chosen| :: P.CanAnswer(answers, chosen[i])
  {
    hide P.CanAnswer;
  }

  /** A session that holds nothing has every slot free. */
  lemma AllNamesFree(chunkMap: seq<seq<int>>, answers: P.Answers)
    requires P.AnswerRows(answers, |chunkMap|) && forall c | 0 <= c < |chunkMap| :: chunkMap[c] == seq(MAX_MR_SIZE_GB, _ => -1)
    ensures P.NamesFree(chunkMap, answers)
  {}
}
