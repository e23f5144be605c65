/** Recovery of lost shards: the decode matrix, and the round trip through it. */
module Decode {
  import opened GaloisField
  import opened GfTables
  import opened Matrices
  import opened GaussJordan
  import opened Cauchy
  import opened Encode

  // ---------- Codewords ----------

  /** All m shards for the given data: the data itself and the parities. */
  function Codeword(m: nat, k: nat, data: Matrix, len: nat): (shards: Matrix)
    requires k <= m && IsMatrix(data, k, len)
    ensures IsMatrix(shards, m, len)
  {
    EncodeAll(CauchyMatrix(m, k), data, len)
  }

  /** The code is systematic. */
  lemma DataShards(m: nat, k: nat, data: Matrix, len: nat)
    requires k <= m && IsMatrix(data, k, len)
    ensures Codeword(m, k, data, len)[..k] == data
    ensures Codeword(m, k, data, len)[k..] == EncodeAll(CauchyMatrix(m, k)[k..], data, len)
  {
    hide Xor, Mul, Dot, GfInv;
    forall i | 0 <= i < k ensures Codeword(m, k, data, len)[i] == data[i] {
      forall b | 0 <= b < len ensures EncodeRow(Unit(k, i), data, len)[b] == data[i][b] {
        DotUnit(Unit(k, i), Column(data, b), k, i);
      }
      assert EncodeRow(Unit(k, i), data, len) == data[i];
    }
  }

  // ---------- Which shards survive ----------

  /** The indices below n that are not marked as lost, in ascending order. */
  function Survivors(inErr: seq<bool>, n: nat): (rows: seq<nat>)
    requires n <= |inErr|
    ensures forall i | 0 <= i < |rows| :: rows[i] < n && !inErr[rows[i]]
    ensures forall i, j | 0 <= i < j < |rows| :: rows[i] < rows[j]
  {
    if n == 0 then [] else Survivors(inErr, n - 1) + if inErr[n - 1] then [] else [n - 1]
  }

  /** The error lists that gf_gen_decode_matrix is given: at most m - k errors, ascending, data rows first. */
  ghost predicate ErrorLists(inErr: seq<bool>, errList: seq<nat>, nsrcerrs: nat, k: nat, m: nat) {
    && k <= m && |inErr| == m && |errList| <= m - k && nsrcerrs <= |errList|
    && (forall p | 0 <= p < |errList| :: errList[p] < m && inErr[errList[p]])
    && (forall i | 0 <= i < m && inErr[i] :: i in errList)
    && (forall p, q | 0 <= p < q < |errList| :: errList[p] < errList[q])
    && forall p | 0 <= p < |errList| :: p < nsrcerrs <==> errList[p] < k
  }

  /** The lost indices below n. */
  function Lost(inErr: seq<bool>, n: nat): (rows: seq<nat>)
    requires n <= |inErr|
    ensures forall i | 0 <= i < |rows| :: rows[i] < n
  {
    if n == 0 then [] else Lost(inErr, n - 1) + if inErr[n - 1] then [n - 1] else []
  }

  lemma {:induction false} LostAndSurvivors(inErr: seq<bool>, n: nat)
    requires n <= |inErr|
    ensures |Lost(inErr, n)| + |Survivors(inErr, n)| == n
    ensures forall i, j | 0 <= i < j < |Lost(inErr, n)| :: Lost(inErr, n)[i] < Lost(inErr, n)[j]
    ensures forall i | 0 <= i < |Lost(inErr, n)| :: inErr[Lost(inErr, n)[i]]
  {
    if n == 0 {
    } else {
      LostAndSurvivors(inErr, n - 1);
    }
  }

  /** A sequence of distinct elements of another one is not longer. */
  lemma {:induction false} NotLonger(a: seq<nat>, b: seq<nat>)
    requires Distinct(a)
    requires forall i | 0 <= i < |a| :: a[i] in b
    ensures |a| <= |b|
    decreases |b|
  {
    if a == [] {
    } else {
      var x := a[|a| - 1];
      var p :| 0 <= p < |b| && b[p] == x;
      var b' := b[..p] + b[p + 1..];
      forall i | 0 <= i < |a| - 1 ensures a[i] in b' {
        var q :| 0 <= q < |b| && b[q] == a[i];
        assert b'[if q < p then q else q - 1] == a[i];
      }
      NotLonger(a[..|a| - 1], b');
    }
  }

  lemma EnoughSurvivors(inErr: seq<bool>, errList: seq<nat>, nsrcerrs: nat, k: nat, m: nat)
    requires ErrorLists(inErr, errList, nsrcerrs, k, m)
    ensures |Survivors(inErr, m)| >= k
  {
    LostAndSurvivors(inErr, m);
    NotLonger(Lost(inErr, m), errList);
  }

  /** Every index at or after r that survives makes the list one longer. */
  lemma {:induction false} SurvivorsBetween(lost: seq<bool>, r: nat, n: nat)
    requires r <= n <= |lost|
    ensures |Survivors(lost, r)| <= |Survivors(lost, n)| <= |Survivors(lost, r)| + (n - r)
    ensures Survivors(lost, n)[..|Survivors(lost, r)|] == Survivors(lost, r)
    decreases n
  {
    if r == n {
    } else {
      SurvivorsBetween(lost, r, n - 1);
    }
  }

  // ---------- What the decode matrix does ----------

  /** Row p, applied to the surviving bytes of any data column, gives the byte of lost shard p. */
  ghost predicate Recovers(decode: Matrix, rows: seq<nat>, errList: seq<nat>, k: nat, m: nat)
    requires RowChoice(rows, m, k) && |decode| >= |errList| && forall p | 0 <= p < |errList| :: |decode[p]| == k
  {
    forall p: nat, x: Vector | p < |errList| && |x| == k ::
      Dot(decode[p], Apply(Chosen(m, k, rows), x), k) == Dot(CauchyRow(k, errList[p]), x, k)
  }

  /** A lost data row is a row of the inverse. */
  lemma DataRowRecovers(inv: Matrix, m: nat, k: nat, rows: seq<nat>, e: nat, x: Vector)
    requires RowChoice(rows, m, k) && IsMatrix(inv, k, k) && e < k && |x| == k
    requires IsInverse(inv, Chosen(m, k, rows), k)
    ensures Dot(inv[e], Apply(Chosen(m, k, rows), x), k) == Dot(CauchyRow(k, e), x, k)
  {
    hide Xor, Mul, Dot, GfInv, CauchyMatrix, Select;
    var s := Apply(Chosen(m, k, rows), x);
    assert Apply(inv, s)[e] == x[e];
    DotUnit(CauchyRow(k, e), x, k, e);
  }

  /** A lost parity row is its encoding row times the inverse. */
  lemma ParityRowRecovers(row: Vector, enc: Vector, inv: Matrix, m: nat, k: nat, rows: seq<nat>, x: Vector)
    requires |x| == k && |row| == k && |enc| == k && RowChoice(rows, m, k) && IsMatrix(inv, k, k)
    requires IsInverse(inv, Chosen(m, k, rows), k)
    requires forall i | 0 <= i < k :: row[i] == Dot(enc, Column(inv, i), k)
    ensures Dot(row, Apply(Chosen(m, k, rows), x), k) == Dot(enc, x, k)
  {
    hide Xor, Mul, Dot, GfInv, CauchyMatrix, Select, Comb;
    var s := Apply(Chosen(m, k, rows), x);
    var comb := Comb(enc, inv, k, k);
    forall i | 0 <= i < k ensures row[i] == comb[i] {
      CombAt(enc, inv, k, k, i);
    }
    assert row == comb;
    DotComb(enc, inv, k, s);
    assert Apply(inv, s) == x;
  }

  // ---------- Building it ----------

  /** The entry of a parity recovery row that the triple loop of gf_gen_decode_matrix accumulates. */
  method ParityEntry(inv: array2<bv8>, enc: array2<bv8>, row: nat, i: nat, k: nat) returns (s: bv8)
    requires inv.Length0 == inv.Length1 == enc.Length1 == k && row < enc.Length0 && i < k
    ensures s == Dot(Rows(enc)[row], Column(Rows(inv), i), k)
  {
    hide Xor, Mul;
    ghost var e, c := Rows(enc)[row], Column(Rows(inv), i);
    s := 0;
    for j := 0 to k
      invariant s == Dot(e, c, j)
    {
      MulComm(inv[j, i], enc[row, j]);
      assert e[j] == enc[row, j] && c[j] == inv[j, i];
      s := Xor(s, Mul(inv[j, i], enc[row, j]));
    }
  }

  /** Skips lost rows: the while loop of gf_gen_decode_matrix. */
  method NextSurvivor(inErr: seq<bool>, start: nat, k: nat) returns (r: nat)
    requires start <= |inErr| && |Survivors(inErr, start)| < k <= |Survivors(inErr, |inErr|)|
    ensures start <= r < |inErr| && !inErr[r] && Survivors(inErr, r) == Survivors(inErr, start)
  {
    r := start;
    while inErr[r]
      invariant start <= r < |inErr| && Survivors(inErr, r) == Survivors(inErr, start)
      decreases |inErr| - r
    {
      r := r + 1;
    }
  }

  /** Collects the first k surviving rows, and their indices. */
  method TakeSurvivors(enc: array2<bv8>, b: array2<bv8>, inErr: seq<bool>, k: nat, m: nat) returns (rows: seq<nat>)
    requires enc.Length0 == m && enc.Length1 == b.Length0 == b.Length1 == k && enc != b && |inErr| == m
    requires |Survivors(inErr, m)| >= k
    modifies b
    ensures rows == Survivors(inErr, m)[..k]
    ensures Rows(b) == Select(Rows(enc), rows)
  {
    hide Survivors;
    rows := [];
    var r := 0;
    NoSurvivors(inErr);
    for i := 0 to k
      invariant r <= m && |rows| == i && rows == Survivors(inErr, r)
      invariant forall t, j | 0 <= t < i && 0 <= j < k :: b[t, j] == enc[rows[t], j]
    {
      r := NextSurvivor(inErr, r, k);
      for j := 0 to k
        invariant forall t, c | 0 <= t < i && 0 <= c < k :: b[t, c] == enc[rows[t], c]
        invariant forall c | 0 <= c < j :: b[i, c] == enc[r, c]
      {
        b[i, j] := enc[r, j];
      }
      OneMoreSurvivor(inErr, r);
      rows := rows + [r];
      r := r + 1;
    }
    SurvivorsBetween(inErr, r, m);
    forall t | 0 <= t < k ensures Rows(b)[t] == Select(Rows(enc), rows)[t] {}
  }

  lemma NoSurvivors(inErr: seq<bool>)
    ensures Survivors(inErr, 0) == []
  {}

  lemma OneMoreSurvivor(inErr: seq<bool>, r: nat)
    requires r < |inErr| && !inErr[r]
    ensures Survivors(inErr, r + 1) == Survivors(inErr, r) + [r]
  {}

  lemma TakenIsChoice(inErr: seq<bool>, k: nat, m: nat)
    requires |inErr| == m && k <= |Survivors(inErr, m)|
    ensures RowChoice(Survivors(inErr, m)[..k], m, k)
  {}

  /** Copies the rows of the inverse that belong to lost data shards. */
  method CopyDataRows(inv: array2<bv8>, decode: array2<bv8>, errList: seq<nat>, nsrcerrs: nat, k: nat)
    requires inv.Length0 == inv.Length1 == decode.Length1 == k && inv != decode
    requires nsrcerrs <= |errList| <= decode.Length0 && forall p | 0 <= p < nsrcerrs :: errList[p] < k
    modifies decode
    ensures forall p | 0 <= p < nsrcerrs :: Rows(decode)[p] == Rows(inv)[errList[p]]
    ensures forall p | nsrcerrs <= p < decode.Length0 :: Rows(decode)[p] == old(Rows(decode)[p])
  {
    for i := 0 to nsrcerrs
      invariant forall p, c | 0 <= p < i && 0 <= c < k :: decode[p, c] == inv[errList[p], c]
      invariant forall p, c | nsrcerrs <= p < decode.Length0 && 0 <= c < k :: decode[p, c] == old(decode[p, c])
    {
      for j := 0 to k
        invariant forall p, c | nsrcerrs <= p < decode.Length0 && 0 <= c < k :: decode[p, c] == old(decode[p, c])
        invariant forall p, c | 0 <= p < i && 0 <= c < k :: decode[p, c] == inv[errList[p], c]
        invariant forall c | 0 <= c < j :: decode[i, c] == inv[errList[i], c]
      {
        decode[i, j] := inv[errList[i], j];
      }
    }
    forall p | 0 <= p < nsrcerrs ensures Rows(decode)[p] == Rows(inv)[errList[p]] {}
    forall p | nsrcerrs <= p < decode.Length0 ensures Rows(decode)[p] == old(Rows(decode)[p]) {}
  }

  /** Combines rows of the inverse for the lost parity shards. */
  method CombineParityRows(inv: array2<bv8>, enc: array2<bv8>, decode: array2<bv8>, errList: seq<nat>, nsrcerrs: nat, k: nat)
    requires inv.Length0 == inv.Length1 == enc.Length1 == decode.Length1 == k && inv != decode && enc != decode
    requires nsrcerrs <= |errList| <= decode.Length0 && forall p | 0 <= p < |errList| :: errList[p] < enc.Length0
    modifies decode
    ensures forall p | 0 <= p < decode.Length0 && !(nsrcerrs <= p < |errList|) :: Rows(decode)[p] == old(Rows(decode)[p])
    ensures forall p, i | nsrcerrs <= p < |errList| && 0 <= i < k ::
              Rows(decode)[p][i] == Dot(Rows(enc)[errList[p]], Column(Rows(inv), i), k)
  {
    hide Dot;
    ghost var e, v := Rows(enc), Rows(inv);
    for p := nsrcerrs to |errList|
      invariant Rows(enc) == e && Rows(inv) == v
      invariant forall q, c | 0 <= q < decode.Length0 && !(nsrcerrs <= q < |errList|) && 0 <= c < k :: decode[q, c] == old(decode[q, c])
      invariant forall q, c | nsrcerrs <= q < p && 0 <= c < k :: decode[q, c] == Dot(e[errList[q]], Column(v, c), k)
    {
      for i := 0 to k
        invariant Rows(enc) == e && Rows(inv) == v
        invariant forall q, c | 0 <= q < decode.Length0 && !(nsrcerrs <= q < |errList|) && 0 <= c < k :: decode[q, c] == old(decode[q, c])
        invariant forall q, c | nsrcerrs <= q < p && 0 <= c < k :: decode[q, c] == Dot(e[errList[q]], Column(v, c), k)
        invariant forall c | 0 <= c < i :: decode[p, c] == Dot(e[errList[p]], Column(v, c), k)
      {
        var s := ParityEntry(inv, enc, errList[p], i, k);
        decode[p, i] := s;
      }
    }
    forall p | 0 <= p < decode.Length0 && !(nsrcerrs <= p < |errList|) ensures Rows(decode)[p] == old(Rows(decode)[p]) {}
  }

  /** What the two loops of gf_gen_decode_matrix leave: rows of the inverse, and encoding rows times the inverse. */
  ghost predicate RowsCombined(decode: Matrix, inv: Matrix, errList: seq<nat>, nsrcerrs: nat, k: nat)
    requires |errList| <= |decode| && IsMatrix(decode, |decode|, k) && IsMatrix(inv, k, k)
  {
    forall p | 0 <= p < |errList| ::
      if p < nsrcerrs then errList[p] < k && decode[p] == inv[errList[p]]
      else forall i | 0 <= i < k :: decode[p][i] == Dot(CauchyRow(k, errList[p]), Column(inv, i), k)
  }

  lemma CauchyRows(m: nat, k: nat, rows: seq<nat>)
    ensures forall p | 0 <= p < |rows| && rows[p] < m :: CauchyMatrix(m, k)[rows[p]] == CauchyRow(k, rows[p])
  {}

  lemma RowsRecover(decode: Matrix, inv: Matrix, rows: seq<nat>, errList: seq<nat>, nsrcerrs: nat, k: nat, m: nat)
    requires k <= m && RowChoice(rows, m, k) && IsMatrix(inv, k, k) && IsInverse(inv, Chosen(m, k, rows), k)
    requires nsrcerrs <= |errList| <= |decode| && IsMatrix(decode, |decode|, k)
    requires forall p | 0 <= p < |errList| :: errList[p] < m && (p < nsrcerrs <==> errList[p] < k)
    requires RowsCombined(decode, inv, errList, nsrcerrs, k)
    ensures Recovers(decode, rows, errList, k, m)
  {
    hide Xor, Mul, Dot, GfInv, CauchyRow, IsInverse, Select;
    forall p: nat, x: Vector | p < |errList| && |x| == k
      ensures Dot(decode[p], Apply(Chosen(m, k, rows), x), k) == Dot(CauchyRow(k, errList[p]), x, k)
    {
      if p < nsrcerrs {
        DataRowRecovers(inv, m, k, rows, errList[p], x);
      } else {
        ParityRowRecovers(decode[p], CauchyRow(k, errList[p]), inv, m, k, rows, x);
      }
    }
  }

  // ---------- The round trip ----------

  /** The shards at the given indices. */
  function Shards(word: Matrix, rows: seq<nat>): (s: Matrix)
    requires forall i | 0 <= i < |rows| :: rows[i] < |word|
    ensures |s| == |rows| && forall i | 0 <= i < |s| :: s[i] == word[rows[i]]
  {
    seq(|rows|, i requires 0 <= i < |rows| => word[rows[i]])
  }

  /** Encoding the survivors with the decode matrix gives back every lost shard, data and parity alike. */
  lemma RoundTrip(decode: Matrix, rows: seq<nat>, errList: seq<nat>, k: nat, m: nat, data: Matrix, len: nat)
    requires k <= m && RowChoice(rows, m, k) && IsMatrix(data, k, len)
    requires |errList| <= |decode| && IsMatrix(decode, |decode|, k)
    requires forall p | 0 <= p < |errList| :: errList[p] < m
    requires Recovers(decode, rows, errList, k, m)
    ensures var word := Codeword(m, k, data, len);
            EncodeAll(decode[..|errList|], Shards(word, rows), len) == Shards(word, errList)
  {
    hide Xor, Mul, Dot, GfInv, CauchyRow;
    var word := Codeword(m, k, data, len);
    var survivors := Shards(word, rows);
    forall p: nat | p < |errList|
      ensures EncodeRow(decode[p], survivors, len) == word[errList[p]]
    {
      forall b | 0 <= b < len ensures EncodeRow(decode[p], survivors, len)[b] == word[errList[p]][b] {
        assert Column(survivors, b) == Apply(Chosen(m, k, rows), Column(data, b));
      }
    }
  }

  /** Whatever the data, encoding the surviving shards with the decode matrix gives all the lost ones. */
  ghost predicate Restores(decode: Matrix, rows: seq<nat>, errList: seq<nat>, k: nat, m: nat)
    requires k <= m && RowChoice(rows, m, k) && |errList| <= |decode| && IsMatrix(decode, |decode|, k)
    requires forall p | 0 <= p < |errList| :: errList[p] < m
  {
    forall data: Matrix, len: nat | IsMatrix(data, k, len) ::
      var word := Codeword(m, k, data, len);
      EncodeAll(decode[..|errList|], Shards(word, rows), len) == Shards(word, errList)
  }

  lemma RecoversRestores(decode: Matrix, rows: seq<nat>, errList: seq<nat>, k: nat, m: nat)
    requires k <= m && RowChoice(rows, m, k) && |errList| <= |decode| && IsMatrix(decode, |decode|, k)
    requires forall p | 0 <= p < |errList| :: errList[p] < m
    requires Recovers(decode, rows, errList, k, m)
    ensures Restores(decode, rows, errList, k, m)
  {
    hide EncodeAll, Codeword, Recovers;
    forall data: Matrix, len: nat | IsMatrix(data, k, len)
      ensures EncodeAll(decode[..|errList|], Shards(Codeword(m, k, data, len), rows), len)
           == Shards(Codeword(m, k, data, len), errList)
    {
      RoundTrip(decode, rows, errList, k, m, data, len);
    }
  }

  // ---------- gf_gen_decode_matrix ----------

  /** gf_gen_decode_matrix for the Cauchy matrix: inversion cannot fail, so the retry loop is never entered. */
  method GfGenDecodeMatrix(enc: array2<bv8>, decode: array2<bv8>, inv: array2<bv8>, errList: seq<nat>, inErr: seq<bool>,
                           nsrcerrs: nat, k: nat, m: nat) returns (ret: int, decodeIndex: seq<nat>)
    requires m <= 256 && ErrorLists(inErr, errList, nsrcerrs, k, m)
    requires enc.Length0 == m && enc.Length1 == k && Rows(enc) == CauchyMatrix(m, k)
    requires inv.Length0 == inv.Length1 == decode.Length1 == k && |errList| <= decode.Length0
    requires inv != decode && enc != decode && enc != inv
    modifies decode, inv
    ensures ret == 0
    ensures k <= |Survivors(inErr, m)| && decodeIndex == Survivors(inErr, m)[..k] && RowChoice(decodeIndex, m, k)
    ensures Recovers(Rows(decode), decodeIndex, errList, k, m)
    ensures Restores(Rows(decode), decodeIndex, errList, k, m)
    ensures IsInverse(Rows(inv), Chosen(m, k, decodeIndex), k)
    ensures forall p | |errList| <= p < decode.Length0 :: Rows(decode)[p] == old(Rows(decode)[p])
  {
    hide CauchyMatrix, CauchyRow, Survivors, IsInverse, Nonsingular, Dot, Rows, Select;
    var b := new bv8[k, k];
    EnoughSurvivors(inErr, errList, nsrcerrs, k, m);
    decodeIndex := TakeSurvivors(enc, b, inErr, k, m);
    TakenIsChoice(inErr, k, m);
    AnyRowsNonsingular(m, k, decodeIndex);
    ret := GfInvertMatrix(b, inv, k);
    assert ret == 0;
    CopyDataRows(inv, decode, errList, nsrcerrs, k);
    CombineParityRows(inv, enc, decode, errList, nsrcerrs, k);
    CauchyRows(m, k, errList);
    RowsRecover(Rows(decode), Rows(inv), decodeIndex, errList, nsrcerrs, k, m);
    RecoversRestores(Rows(decode), decodeIndex, errList, k, m);
  }
}
