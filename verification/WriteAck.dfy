/** When a write is acknowledged: its counter starts at k, like that of a read, and every completion counts down. */
module WriteAck {
  import opened GaloisField
  import opened Matrices
  import opened GaussJordan
  import opened Cauchy
  import opened Decode
  import opened ShardIo

  /** The completions of the posted writes, in the order in which they come in. */
  ghost predicate IsOrder(order: seq<nat>, posted: seq<nat>) {
    multiset(order) == multiset(posted)
  }

  lemma OrderLength(order: seq<nat>, posted: seq<nat>)
    requires IsOrder(order, posted)
    ensures |order| == |posted|
    ensures forall i | 0 <= i < |posted| :: posted[i] in order
  {
    assert |multiset(order)| == |order| && |multiset(posted)| == |posted|;
    forall i | 0 <= i < |posted| ensures posted[i] in order {
      assert posted[i] in multiset(posted);
    }
  }

  /** The countdown of client_write_done: the write is acknowledged at its k-th completion and never again, so it is
      acknowledged at all exactly when at least k shards are mapped, and only after every mapped shard is written exactly
      when at most k are. */
  method AcknowledgeWrite(cbIndex: seq<int>, k: nat, order: seq<nat>) returns (acked: seq<bool>)
    requires 1 <= k && IsOrder(order, Survivors(Unmapped(cbIndex), |cbIndex|))
    ensures |acked| == |order| && forall t | 0 <= t < |order| :: acked[t] <==> t == k - 1
    ensures (exists t :: 0 <= t < |acked| && acked[t]) <==> k <= |Survivors(Unmapped(cbIndex), |cbIndex|)|
    ensures (forall t | 0 <= t < |acked| && acked[t] :: t + 1 == |order|) <==> |Survivors(Unmapped(cbIndex), |cbIndex|)| <= k
  {
    hide Survivors;
    OrderLength(order, Survivors(Unmapped(cbIndex), |cbIndex|));
    acked := [];
    var count: int := k;
    for t := 0 to |order|
      invariant |acked| == t && count == k - t
      invariant forall u | 0 <= u < t :: acked[u] <==> u == k - 1
    {
      count := count - 1;
      acked := acked + [count == 0];
    }
    if k <= |order| {
      assert acked[k - 1];
    }
  }

  /** At the acknowledgement every shard that the next read fetches has been written. */
  ghost predicate WrittenInTime(order: seq<nat>, mapped: seq<nat>, k: nat)
    requires k <= |order| && k <= |mapped|
  {
    forall i | 0 <= i < k :: mapped[i] in order[..k]
  }

  /** A read that follows the acknowledgement is safe in whatever order the completions come in exactly when no more than
      k shards are mapped. */
  lemma ReadAfterAck(mapped: seq<nat>, k: nat)
    requires 1 <= k <= |mapped| && Distinct(mapped)
    ensures (forall order | IsOrder(order, mapped) :: k <= |order| && WrittenInTime(order, mapped, k)) <==> |mapped| == k
  {
    if |mapped| == k {
      forall order | IsOrder(order, mapped) ensures k <= |order| && WrittenInTime(order, mapped, k) {
        OrderLength(order, mapped);
        assert order[..k] == order;
      }
    } else {
      var order := LateFirst(mapped, k);
      assert !WrittenInTime(order, mapped, k);
    }
  }

  /** The first mapped shard may be the last to be written, but it is the first to be fetched. */
  lemma LateFirst(mapped: seq<nat>, k: nat) returns (order: seq<nat>)
    requires k < |mapped| && Distinct(mapped)
    ensures |order| == |mapped| && IsOrder(order, mapped) && mapped[0] !in order[..k]
  {
    order := mapped[1..] + [mapped[0]];
    assert mapped == [mapped[0]] + mapped[1..];
    assert order[..k] == mapped[1..k + 1];
  }

  /** What makes the k-th completion the right one: the k shards that have been written determine all the data. */
  lemma AckedShardsDetermine(m: nat, k: nat, len: nat, rows: seq<nat>, data: Matrix, data': Matrix)
    requires k <= m <= 256 && RowChoice(rows, m, k) && IsMatrix(data, k, len) && IsMatrix(data', k, len)
    requires forall i | 0 <= i < k :: Codeword(m, k, data, len)[rows[i]] == Codeword(m, k, data', len)[rows[i]]
    ensures data == data'
  {
    hide Xor, Mul, Dot, CauchyMatrix, CauchyRow, Nonsingular, Codeword, Select;
    AnyRowsNonsingular(m, k, rows);
    forall b | 0 <= b < len ensures Column(data, b) == Column(data', b) {
      var x, y := Column(data, b), Column(data', b);
      forall i | 0 <= i < k ensures Dot(Chosen(m, k, rows)[i], x, k) == Dot(Chosen(m, k, rows)[i], y, k) {
        CodewordColumn(m, k, data, len, rows, i, b);
        CodewordColumn(m, k, data', len, rows, i, b);
      }
      SameImage(Chosen(m, k, rows), k, x, y);
    }
    forall i | 0 <= i < k ensures data[i] == data'[i] {
      forall b | 0 <= b < len ensures data[i][b] == data'[i][b] {
        assert Column(data, b)[i] == Column(data', b)[i];
      }
    }
  }

  lemma CodewordColumn(m: nat, k: nat, data: Matrix, len: nat, rows: seq<nat>, i: nat, b: nat)
    requires k <= m && RowChoice(rows, m, k) && IsMatrix(data, k, len) && i < k && b < len
    ensures Codeword(m, k, data, len)[rows[i]][b] == Dot(Chosen(m, k, rows)[i], Column(data, b), k)
  {
    hide Xor, Mul, Dot, CauchyRow;
  }

  /** A nonsingular matrix tells vectors apart. */
  lemma SameImage(a: Matrix, k: nat, x: Vector, y: Vector)
    requires IsMatrix(a, k, k) && Nonsingular(a, k) && |x| == |y| == k
    requires forall i | 0 <= i < k :: Dot(a[i], x, k) == Dot(a[i], y, k)
    ensures x == y
  {
    hide Xor, Mul, Dot;
    var z := Plus(x, y);
    forall i | 0 <= i < k ensures Dot(a[i], z, k) == 0 {
      DotPlus(x, y, a[i], k);
      XorLaws(Dot(a[i], x, k), 0);
    }
    assert InKernel(a, z);
    forall i | 0 <= i < k ensures x[i] == y[i] {
      assert z[i] == 0;
      XorEqual(x[i], y[i]);
    }
  }
}
