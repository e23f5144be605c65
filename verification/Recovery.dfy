/** The erasure round trip through the matrices, tables and kernels of the library. */
module Recovery {
  import opened Matrices
  import opened GaussJordan
  import opened Cauchy
  import opened MulTables
  import opened Encode
  import opened Decode
  import opened Striping
  import opened Pages

  /** What is at hand after the marked shards are lost; a lost shard's buffer holds anything. */
  function Received(word: Matrix, inErr: seq<bool>, stale: Matrix): (shards: Matrix)
    requires |word| == |inErr| == |stale|
    ensures |shards| == |word|
    ensures forall i | 0 <= i < |shards| :: shards[i] == if inErr[i] then stale[i] else word[i]
  {
    seq(|word|, i requires 0 <= i < |word| => if inErr[i] then stale[i] else word[i])
  }

  /** Survivors are received, so the sources of the recovery are those of the code word. */
  lemma SourcesReceived(word: Matrix, inErr: seq<bool>, stale: Matrix, k: nat, m: nat)
    requires |word| == |inErr| == |stale| == m && k <= |Survivors(inErr, m)|
    ensures |Survivors(inErr, m)[..k]| == k && forall i | 0 <= i < k :: Survivors(inErr, m)[..k][i] < m
    ensures Shards(Received(word, inErr, stale), Survivors(inErr, m)[..k]) == Shards(word, Survivors(inErr, m)[..k])
  {
    hide Received;
    var rows := Survivors(inErr, m)[..k];
    forall i | 0 <= i < k
      ensures Shards(Received(word, inErr, stale), rows)[i] == Shards(word, rows)[i]
    {
      assert !inErr[rows[i]];
    }
  }

  lemma ErrorListFacts(inErr: seq<bool>, errList: seq<nat>, nsrcerrs: nat, k: nat, m: nat)
    requires ErrorLists(inErr, errList, nsrcerrs, k, m)
    ensures |inErr| == m && |errList| <= m - k && Distinct(errList)
    ensures forall p | 0 <= p < |errList| :: errList[p] < m && inErr[errList[p]]
    ensures forall i | 0 <= i < m :: inErr[i] ==> i in errList
  {}

  /** The tables of k parity rows, or of the recovery rows. */
  method NewTables(matrix: array2<bv8>, k: nat, top: nat, rows: nat) returns (tables: array<bv8>)
    requires matrix.Length1 == k && top + rows <= matrix.Length0
    ensures fresh(tables) && HoldsTables(tables[..], Rows(matrix)[top..top + rows], k)
  {
    hide HoldsTables, Rows;
    NotNegative(rows, k);
    tables := new bv8[32 * (rows * k)];
    EcInitTables(k, rows, matrix, top, tables);
  }

  /** All m shards of the data. */
  method EncodeShards(data: Matrix, k: nat, m: nat, len: nat, enc: array2<bv8>) returns (word: Matrix)
    requires 1 <= k <= m && IsMatrix(data, k, len)
    requires enc.Length0 == m && enc.Length1 == k && Rows(enc) == CauchyMatrix(m, k)
    ensures word == Codeword(m, k, data, len)
  {
    hide HoldsTables, CauchyMatrix, EncodeAll, Codeword, ZeroShards, Rows;
    var tables := NewTables(enc, k, k, m - k);
    assert CauchyMatrix(m, k)[k..m] == CauchyMatrix(m, k)[k..];
    ghost var held := tables[..];
    var bufs := Buffers(data + ZeroShards(m - k, len), len);
    assert tables[..] == held;
    AddParities(bufs, data, k, m, len, tables);
    word := Snapshot(bufs, len);
  }

  /** Encode, lose any m - k shards at most, rebuild: every shard is back, data and parity alike, whatever the data, the
      length, and the leftovers in the buffers of the lost shards. */
  method RestoreLost(data: Matrix, len: nat, k: nat, m: nat, inErr: seq<bool>, errList: seq<nat>, nsrcerrs: nat,
                     stale: Matrix) returns (full: Matrix)
    requires 1 <= k <= m <= 256 && IsMatrix(data, k, len) && IsMatrix(stale, m, len)
    requires ErrorLists(inErr, errList, nsrcerrs, k, m)
    ensures full == Codeword(m, k, data, len)
  {
    hide HoldsTables, CauchyMatrix, EncodeAll, EncodeRow, Codeword, Rows, Recovers, Restores, Survivors, ErrorLists, Received;
    ErrorListFacts(inErr, errList, nsrcerrs, k, m);
    var enc, decode, inv := new bv8[m, k], new bv8[m, k], new bv8[k, k];
    GfGenCauchy1Matrix(enc, m, k);
    var word := EncodeShards(data, k, m, len, enc);
    var ret, decodeIndex := GfGenDecodeMatrix(enc, decode, inv, errList, inErr, nsrcerrs, k, m);
    SourcesReceived(word, inErr, stale, k, m);
    ghost var rows := Rows(decode);
    full := RebuildShards(Received(word, inErr, stale), k, m, len, inErr, errList, decodeIndex, decode);
    forall i | 0 <= i < m ensures full[i] == word[i] {
      if i in errList {
        var p :| 0 <= p < |errList| && errList[p] == i;
        RestoredRow(rows, decodeIndex, errList, k, m, data, len, p);
      } else {
        assert !inErr[i];
      }
    }
  }

  /** Tables for the decode matrix, and the recovery itself. */
  method RebuildShards(shards: Matrix, k: nat, m: nat, len: nat, ghost inErr: seq<bool>, errList: seq<nat>,
                       decodeIndex: seq<nat>, decode: array2<bv8>) returns (full: Matrix)
    requires 1 <= k && IsMatrix(shards, m, len) && |inErr| == m && decode.Length0 >= |errList| && decode.Length1 == k
    requires Distinct(errList) && forall p | 0 <= p < |errList| :: errList[p] < m && inErr[errList[p]]
    requires k <= |Survivors(inErr, m)| && decodeIndex == Survivors(inErr, m)[..k]
    ensures |decodeIndex| == k && forall i | 0 <= i < k :: decodeIndex[i] < m
    ensures IsMatrix(full, m, len)
    ensures forall i | 0 <= i < m && i !in errList :: full[i] == shards[i]
    ensures forall p | 0 <= p < |errList| ::
              full[errList[p]] == EncodeRow(Rows(decode)[p], Shards(shards, decodeIndex), len)
  {
    SourcesSurvive(inErr, errList, k, m);
    hide HoldsTables, EncodeRow, Rows, Survivors;
    ghost var rows := Rows(decode);
    var tables := NewTables(decode, k, 0, |errList|);
    ghost var held := tables[..];
    var bufs := Buffers(shards, len);
    assert tables[..] == held && Rows(decode) == rows;
    RecoverInto(bufs, shards, k, m, len, errList, decodeIndex, tables, rows[0..|errList|]);
    full := Snapshot(bufs, len);
    assert Rows(decode) == rows;
  }

  lemma SourcesSurvive(inErr: seq<bool>, errList: seq<nat>, k: nat, m: nat)
    requires |inErr| == m && k <= |Survivors(inErr, m)|
    requires forall p | 0 <= p < |errList| :: errList[p] < m && inErr[errList[p]]
    ensures |Survivors(inErr, m)[..k]| == k
    ensures forall i | 0 <= i < k :: Survivors(inErr, m)[..k][i] < m && Survivors(inErr, m)[..k][i] !in errList
  {}

  lemma RestoredRow(decode: Matrix, rows: seq<nat>, errList: seq<nat>, k: nat, m: nat, data: Matrix, len: nat, p: nat)
    requires k <= m && RowChoice(rows, m, k) && |errList| <= |decode| && IsMatrix(decode, |decode|, k)
    requires forall q | 0 <= q < |errList| :: errList[q] < m
    requires Restores(decode, rows, errList, k, m) && IsMatrix(data, k, len) && p < |errList|
    ensures var word := Codeword(m, k, data, len); EncodeRow(decode[p], Shards(word, rows), len) == word[errList[p]]
  {
    hide EncodeRow, Codeword;
    var word := Codeword(m, k, data, len);
    assert EncodeAll(decode[..|errList|], Shards(word, rows), len)[p] == Shards(word, errList)[p];
    EncodedAt(decode[..|errList|], Shards(word, rows), len, p);
  }
}
