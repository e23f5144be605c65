/** Which shards a read fetches, and how its completions are counted. */
module ShardIo {
  import opened Decode
  import opened SlabMap

  /** The shards of a coding group that no server holds. */
  function Unmapped(cbIndex: seq<int>): (lost: seq<bool>)
    ensures |lost| == |cbIndex|
  {
    seq(|cbIndex|, i requires 0 <= i < |cbIndex| => cbIndex[i] == NO_CB_MAPPED)
  }

  /** posted interleaves a and b. */
  ghost predicate Mixes(posted: seq<nat>, a: seq<nat>, b: seq<nat>) {
    multiset(posted) == multiset(a) + multiset(b)
  }

  lemma NothingMixed()
    ensures Mixes([], [], [])
  {}

  lemma MixLeft(posted: seq<nat>, a: seq<nat>, b: seq<nat>, x: nat)
    requires Mixes(posted, a, b)
    ensures Mixes(posted + [x], a + [x], b)
  {}

  lemma MixRight(posted: seq<nat>, a: seq<nat>, b: seq<nat>, x: nat)
    requires Mixes(posted, a, b)
    ensures Mixes(posted + [x], a, b + [x])
  {}

  lemma MixAll(posted: seq<nat>, a: seq<nat>, b: seq<nat>)
    requires Mixes(posted, a, b)
    ensures multiset(posted) == multiset(a + b)
  {}

  /** The posting loop of IS_rdma_read without faults: each unmapped data shard is replaced by the next good parity.
      The search stays inside cb_index exactly when at least k shards are mapped; the shards posted are then the first k
      that survive, which is what decode_index lists. */
  method PostReads(cbIndex: seq<int>, k: nat, m: nat) returns (inside: bool, posted: seq<nat>, j: nat)
    requires |cbIndex| == m && k <= m
    ensures inside <==> k <= |Survivors(Unmapped(cbIndex), m)|
    ensures inside ==> k + j <= m && Survivors(Unmapped(cbIndex), k + j) == Survivors(Unmapped(cbIndex), m)[..k]
    ensures inside ==> multiset(posted) == multiset(Survivors(Unmapped(cbIndex), m)[..k])
  {
    hide Survivors, Unmapped, Mixes;
    ghost var lost := Unmapped(cbIndex);
    ghost var parities: seq<nat> := [];
    NoSurvivors(lost);
    posted, j, inside := [], 0, true;
    NothingMixed();
    for i := 0 to k
      invariant k + j <= m && Survivors(lost, k + j) == Survivors(lost, k) + parities
      invariant |parities| == i - |Survivors(lost, i)|
      invariant Mixes(posted, Survivors(lost, i), parities)
    {
      UnmappedAt(cbIndex, i);
      if cbIndex[i] == NO_CB_MAPPED {
        SurvivorsSkip(lost, i);
        j, inside := GoodParity(cbIndex, k, m, j);
        if !inside {
          SurvivorsBetween(lost, i + 1, k);
          return;
        }
        OneMoreSurvivor(lost, k + j);
        MixRight(posted, Survivors(lost, i), parities, k + j);
        parities := parities + [k + j];
        posted := posted + [k + j];
        j := j + 1;
      } else {
        OneMoreSurvivor(lost, i);
        MixLeft(posted, Survivors(lost, i), parities, i);
        posted := posted + [i];
      }
    }
    SurvivorsBetween(lost, k + j, m);
    MixAll(posted, Survivors(lost, k), parities);
    inside := true;
  }

  /** With no shard mapped at all the search for a parity leaves the list. */
  lemma NoGoodParity()
    ensures |Survivors(Unmapped([NO_CB_MAPPED, NO_CB_MAPPED]), 2)| < 1
  {
    var lost := Unmapped([NO_CB_MAPPED, NO_CB_MAPPED]);
    SurvivorsSkip(lost, 0);
    SurvivorsSkip(lost, 1);
  }

  lemma UnmappedAt(cbIndex: seq<int>, i: nat)
    requires i < |cbIndex|
    ensures Unmapped(cbIndex)[i] == (cbIndex[i] == NO_CB_MAPPED)
  {}

  lemma SurvivorsSkip(lost: seq<bool>, i: nat)
    requires i < |lost| && lost[i]
    ensures Survivors(lost, i + 1) == Survivors(lost, i)
  {}

  /** The inner loop of IS_rdma_read: looks for the next mapped parity. It tests an entry before its bound, so without
      one it goes on to the entry behind the list. */
  method GoodParity(cbIndex: seq<int>, k: nat, m: nat, from: nat) returns (j: nat, inside: bool)
    requires |cbIndex| == m && k + from <= m
    ensures from <= j <= m - k && Survivors(Unmapped(cbIndex), k + j) == Survivors(Unmapped(cbIndex), k + from)
    ensures inside <==> j < m - k
    ensures inside ==> !Unmapped(cbIndex)[k + j]
  {
    hide Survivors, Unmapped;
    j := from;
    while k + j < m
      invariant from <= j <= m - k && Survivors(Unmapped(cbIndex), k + j) == Survivors(Unmapped(cbIndex), k + from)
    {
      UnmappedAt(cbIndex, k + j);
      if cbIndex[k + j] != NO_CB_MAPPED {
        return j, true;
      }
      SurvivorsSkip(Unmapped(cbIndex), k + j);
      j := j + 1;
    }
    return j, false;
  }

  /** The waiting loop of IS_rdma_read, with the completions it takes and client_read_done's countdown: every posted
      shard is waited for once, and the recovery step runs exactly when the last of them is in. */
  method WaitForReads(cbIndex: seq<int>, k: nat, m: nat, j: nat) returns (visited: seq<nat>, fired: seq<bool>)
    requires |cbIndex| == m && 1 <= k && k + j <= m && |Survivors(Unmapped(cbIndex), k + j)| == k
    ensures visited == Survivors(Unmapped(cbIndex), k + j)
    ensures |fired| == k && forall t | 0 <= t < k :: fired[t] <==> t == k - 1
  {
    hide Survivors, Unmapped;
    ghost var lost := Unmapped(cbIndex);
    NoSurvivors(lost);
    visited, fired := [], [];
    var count := k;
    for i := 0 to k + j
      invariant visited == Survivors(lost, i) && |fired| == |visited| && count == k - |visited|
      invariant forall t | 0 <= t < |fired| :: fired[t] <==> t == k - 1
    {
      SurvivorsBetween(lost, i, k + j);
      UnmappedAt(cbIndex, i);
      if cbIndex[i] == NO_CB_MAPPED {
        SurvivorsSkip(lost, i);
        continue;
      }
      OneMoreSurvivor(lost, i);
      SurvivorsBetween(lost, i + 1, k + j);
      visited := visited + [i];
      count := count - 1;
      fired := fired + [count == 0];
    }
  }
}
