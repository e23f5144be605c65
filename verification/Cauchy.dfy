/** The systematic Cauchy encoding matrix: every choice of k rows is invertible. */
module Cauchy {
  import opened GaloisField
  import opened GfTables
  import opened Matrices
  import opened GaussJordan

  /** An int passed as unsigned char. */
  function Byte(i: nat): bv8 { (i % 256) as bv8 }

  lemma ByteValue(i: nat)
    requires i < 256
    ensures Byte(i) as int == i
  {
    assert i % 256 == i;
  }

  lemma ByteInjective(i: nat, j: nat)
    requires i < 256 && j < 256 && i != j
    ensures Byte(i) != Byte(j)
  {
    hide Byte;
    ByteValue(i);
    ByteValue(j);
  }

  /** Row i of the encoding matrix: identity on top, 1/(i + j) below. */
  function CauchyRow(k: nat, i: nat): (row: Vector)
    ensures |row| == k
  {
    if i < k then Unit(k, i) else seq(k, j requires 0 <= j => GfInv(Xor(Byte(i), Byte(j))))
  }

  function CauchyMatrix(m: nat, k: nat): (a: Matrix)
    ensures IsMatrix(a, m, k)
  {
    seq(m, i requires 0 <= i => CauchyRow(k, i))
  }

  /** The rows of m at the given indices. */
  function Select(m: Matrix, rows: seq<nat>): (s: Matrix)
    requires forall i | 0 <= i < |rows| :: rows[i] < |m|
  {
    seq(|rows|, i requires 0 <= i < |rows| => m[rows[i]])
  }

  // ---------- A square Cauchy system has only the zero solution ----------

  /** The row 1/(r + j) over the columns js. */
  function CauchyVec(js: Vector, r: bv8): (row: Vector)
    ensures |row| == |js|
  {
    seq(|js|, i requires 0 <= i < |js| => GfInv(Xor(r, js[i])))
  }

  lemma MulRotate(a: bv8, b: bv8, c: bv8)
    ensures Mul(a, Mul(b, c)) == Mul(b, Mul(a, c))
  {
    hide Mul;
    MulAssoc(a, b, c);
    MulComm(a, b);
    MulAssoc(b, a, c);
  }

  /** For nonzero a and b: (a + b) d / (a b) == (a + d) / a + (b + d) / b. */
  lemma FractionIdentity(a: bv8, b: bv8, d: bv8)
    requires a != 0 && b != 0
    ensures Mul(Xor(a, b), Mul(d, Mul(GfInv(b), GfInv(a))))
         == Xor(Mul(Xor(a, d), GfInv(a)), Mul(Xor(b, d), GfInv(b)))
  {
    hide Mul, Xor, GfInv;
    var ia, ib := GfInv(a), GfInv(b);
    GfInvIsInverse(a);
    GfInvIsInverse(b);
    // right-hand side: (1 + d ia) + (1 + d ib) == d ia + d ib
    MulXorLeft(a, d, ia);
    MulXorLeft(b, d, ib);
    XorSwap(1, Mul(d, ia), 1, Mul(d, ib));
    XorLaws(1, 1);
    XorLaws(Xor(Mul(d, ia), Mul(d, ib)), 0);
    // left-hand side: d (a ib ia + b ib ia) == d (ib + ia)
    MulRotate(Xor(a, b), d, Mul(ib, ia));
    MulXorLeft(a, b, Mul(ib, ia));
    MulRotate(a, ib, ia);
    MulAssoc(b, ib, ia);
    MulOne(ib);
    MulOne(ia);
    MulXor(d, ib, ia);
    XorLaws(Mul(d, ib), Mul(d, ia));
  }

  /** The coefficients left after eliminating row r1 and the last column. */
  function Eliminated(w: Vector, js: Vector, r1: bv8, c: bv8): (u: Vector)
    requires |w| == |js|
  {
    seq(|w|, i requires 0 <= i < |w| => Mul(w[i], Mul(Xor(js[i], c), GfInv(Xor(r1, js[i])))))
  }

  lemma XorVia(a: bv8, b: bv8, c: bv8)
    ensures Xor(a, c) == Xor(Xor(a, b), Xor(b, c))
  {
    assert a ^ c == (a ^ b) ^ (b ^ c);
  }

  lemma EliminatedTerm(w: bv8, j: bv8, r: bv8, r1: bv8, c: bv8)
    requires r != j && r1 != j
    ensures Mul(Xor(r, r1), Mul(Mul(w, Mul(Xor(j, c), GfInv(Xor(r1, j)))), GfInv(Xor(r, j))))
         == Xor(Mul(Xor(r, c), Mul(w, GfInv(Xor(r, j)))), Mul(Xor(r1, c), Mul(w, GfInv(Xor(r1, j)))))
  {
    var a, b, d := Xor(r, j), Xor(r1, j), Xor(j, c);
    XorEqual(r, j);
    XorEqual(r1, j);
    hide Mul, Xor, GfInv;
    XorVia(r, j, r1);
    XorVia(r, j, c);
    XorVia(r1, j, c);
    XorLaws(j, r1);
    var ia, ib := GfInv(a), GfInv(b);
    FractionIdentity(a, b, d);
    MulAssoc(w, Mul(d, ib), ia);
    MulAssoc(d, ib, ia);
    MulRotate(Xor(a, b), w, Mul(d, Mul(ib, ia)));
    MulXor(w, Mul(Xor(a, d), ia), Mul(Xor(b, d), ib));
    MulRotate(w, Xor(a, d), ia);
    MulRotate(w, Xor(b, d), ib);
  }

  /** A termwise linear relation carries over to the sums. */
  lemma {:induction false} DotRelation(rho: bv8, u: Vector, p: bv8, q: bv8, w: Vector, x: Vector, y: Vector, n: nat)
    requires n <= |u| && n <= |w| && n <= |x| && n <= |y|
    requires forall i | 0 <= i < n ::
               Mul(rho, Mul(u[i], x[i])) == Xor(Mul(p, Mul(w[i], x[i])), Mul(q, Mul(w[i], y[i])))
    ensures Mul(rho, Dot(u, x, n)) == Xor(Mul(p, Dot(w, x, n)), Mul(q, Dot(w, y, n)))
  {
    hide Mul, Xor;
    if n == 0 {
      MulZero(rho);
      MulZero(p);
      MulZero(q);
      XorLaws(0, 0);
    } else {
      var i := n - 1;
      DotRelation(rho, u, p, q, w, x, y, i);
      MulXor(rho, Dot(u, x, i), Mul(u[i], x[i]));
      MulXor(p, Dot(w, x, i), Mul(w[i], x[i]));
      MulXor(q, Dot(w, y, i), Mul(w[i], y[i]));
      XorSwap(Mul(p, Dot(w, x, i)), Mul(q, Dot(w, y, i)), Mul(p, Mul(w[i], x[i])), Mul(q, Mul(w[i], y[i])));
    }
  }

  /** Row r of the smaller system still vanishes. */
  lemma EliminatedVanishes(w: Vector, js: Vector, r: bv8, r1: bv8, c: bv8)
    requires |w| == |js| && r != r1 && r !in js && r1 !in js
    requires Dot(w, CauchyVec(js, r), |w|) == 0 && Dot(w, CauchyVec(js, r1), |w|) == 0
    ensures Dot(Eliminated(w, js, r1, c), CauchyVec(js, r), |w|) == 0
  {
    hide Mul, Xor, GfInv, Dot;
    var u, x, y := Eliminated(w, js, r1, c), CauchyVec(js, r), CauchyVec(js, r1);
    forall i | 0 <= i < |w|
      ensures Mul(Xor(r, r1), Mul(u[i], x[i])) == Xor(Mul(Xor(r, c), Mul(w[i], x[i])), Mul(Xor(r1, c), Mul(w[i], y[i])))
    {
      EliminatedTerm(w[i], js[i], r, r1, c);
    }
    DotRelation(Xor(r, r1), u, Xor(r, c), Xor(r1, c), w, x, y, |w|);
    MulZero(Xor(r, c));
    MulZero(Xor(r1, c));
    XorLaws(0, 0);
    XorEqual(r, r1);
    MulCancel(Xor(r, r1), Dot(u, x, |w|));
  }

  lemma {:induction false} CauchyTrivialKernel(w: Vector, js: Vector, rs: Vector)
    requires |w| == |js| <= |rs| && Distinct(js) && Distinct(rs)
    requires forall r | r in rs :: r !in js
    requires forall r | r in rs :: Dot(w, CauchyVec(js, r), |w|) == 0
    ensures w == Zeros(|w|)
    decreases |w|
  {
    hide Mul, Xor, GfInv, Dot, Eliminated, CauchyVec;
    if |w| == 0 {
    } else {
      var n := |w| - 1;
      var r1 := rs[|rs| - 1];
      var js', rs' := js[..n], rs[..|rs| - 1];
      assert r1 in rs;
      forall r | r in rs' ensures r in rs && r != r1 && r !in js' {}
      var u := SmallerSystem(w, js, r1, n);
      forall r | r in rs' ensures Dot(u, CauchyVec(js', r), n) == 0 {
        SmallerVanishes(w, js, r, r1, n);
      }
      CauchyTrivialKernel(u, js', rs');
      BackSubstitute(w, js, r1, n);
    }
  }

  /** The first n coefficients of the eliminated system. */
  function SmallerSystem(w: Vector, js: Vector, r1: bv8, n: nat): (u: Vector)
    requires |w| == |js| == n + 1
    ensures |u| == n
  {
    Eliminated(w, js, r1, js[n])[..n]
  }

  lemma SmallerVanishes(w: Vector, js: Vector, r: bv8, r1: bv8, n: nat)
    requires |w| == |js| == n + 1 && r != r1 && r !in js && r1 !in js
    requires Dot(w, CauchyVec(js, r), n + 1) == 0 && Dot(w, CauchyVec(js, r1), n + 1) == 0
    ensures Dot(SmallerSystem(w, js, r1, n), CauchyVec(js[..n], r), n) == 0
  {
    hide Mul, Xor, GfInv, Dot;
    var u := Eliminated(w, js, r1, js[n]);
    EliminatedVanishes(w, js, r, r1, js[n]);
    LastEliminated(w[n], js[n], r1);
    LastTermZero(u, CauchyVec(js, r), n);
    ShorterDot(u, js, r, n);
  }

  /** From the zero solution of the smaller system back to that of the larger one. */
  lemma BackSubstitute(w: Vector, js: Vector, r1: bv8, n: nat)
    requires |w| == |js| == n + 1 && Distinct(js) && r1 !in js
    requires Dot(w, CauchyVec(js, r1), n + 1) == 0
    requires SmallerSystem(w, js, r1, n) == Zeros(n)
    ensures w == Zeros(n + 1)
  {
    hide Mul, Xor, GfInv, Dot;
    var c := js[n];
    forall i | 0 <= i < n ensures w[i] == 0 {
      assert SmallerSystem(w, js, r1, n)[i] == Zeros(n)[i];
      NotEliminated(w[i], js[i], c, r1);
    }
    OnlyLast(w, CauchyVec(js, r1), n);
    XorEqual(r1, c);
    GfInvIsInverse(Xor(r1, c));
    MulComm(w[n], GfInv(Xor(r1, c)));
    MulCancel(GfInv(Xor(r1, c)), w[n]);
  }

  lemma ShorterDot(u: Vector, js: Vector, r: bv8, n: nat)
    requires n <= |u| == |js|
    ensures Dot(u[..n], CauchyVec(js[..n], r), n) == Dot(u, CauchyVec(js, r), n)
  {
    hide Mul, Xor, GfInv, Dot;
    DotCongruent(u[..n], u, CauchyVec(js[..n], r), CauchyVec(js, r), n);
  }

  lemma LastTermZero(u: Vector, x: Vector, n: nat)
    requires n < |u| && n < |x| && u[n] == 0
    ensures Dot(u, x, n + 1) == Dot(u, x, n)
  {
    hide Mul, Xor;
    MulZero(x[n]);
    XorLaws(Dot(u, x, n), 0);
  }

  lemma OnlyLast(w: Vector, x: Vector, n: nat)
    requires n < |w| && n < |x|
    requires forall i | 0 <= i < n :: w[i] == 0
    ensures Dot(w, x, n + 1) == Mul(w[n], x[n])
  {
    hide Mul, Xor;
    DotComm(w, x, n);
    DotZeroTail(x, w, 0, n);
    XorLaws(Mul(w[n], x[n]), 0);
  }

  lemma LastEliminated(w: bv8, c: bv8, r1: bv8)
    ensures Mul(w, Mul(Xor(c, c), GfInv(Xor(r1, c)))) == 0
  {
    hide Mul, Xor, GfInv;
    XorLaws(c, c);
    MulZero(GfInv(Xor(r1, c)));
    MulZero(w);
  }

  lemma NotEliminated(w: bv8, j: bv8, c: bv8, r1: bv8)
    requires j != c && r1 != j
    requires Mul(w, Mul(Xor(j, c), GfInv(Xor(r1, j)))) == 0
    ensures w == 0
  {
    hide Mul, Xor, GfInv;
    XorEqual(j, c);
    XorEqual(r1, j);
    GfInvIsInverse(Xor(r1, j));
    var f := Mul(Xor(j, c), GfInv(Xor(r1, j)));
    MulCancel(Xor(j, c), GfInv(Xor(r1, j)));
    MulComm(w, f);
    MulCancel(f, w);
  }

  // ---------- Any k rows of the encoding matrix ----------

  ghost predicate RowChoice(rows: seq<nat>, m: nat, k: nat) {
    |rows| == k && Distinct(rows) && forall i | 0 <= i < k :: rows[i] < m
  }

  /** The square matrix of the chosen rows. */
  function Chosen(m: nat, k: nat, rows: seq<nat>): (b: Matrix)
    requires |rows| == k && forall i | 0 <= i < k :: rows[i] < m
    ensures IsMatrix(b, k, k)
  {
    Select(CauchyMatrix(m, k), rows)
  }

  /** The columns below n whose own data row was not chosen. */
  function Missing(rows: seq<nat>, n: nat): (js: seq<nat>)
    ensures forall i | 0 <= i < |js| :: js[i] < n
  {
    if n == 0 then [] else Missing(rows, n - 1) + if n - 1 in rows then [] else [n - 1]
  }

  lemma {:induction false} MissingFacts(rows: seq<nat>, n: nat)
    ensures Distinct(Missing(rows, n))
    ensures forall j: nat :: j in Missing(rows, n) <==> j < n && j !in rows
  {
    if n == 0 {
    } else {
      MissingFacts(rows, n - 1);
    }
  }

  /** The parity rows among the first n chosen ones. */
  function Parities(rows: seq<nat>, k: nat, n: nat): (rs: seq<nat>)
    requires n <= |rows|
    ensures forall i | 0 <= i < |rs| :: rs[i] >= k && rs[i] in rows[..n]
  {
    if n == 0 then [] else
      assert forall r | r in rows[..n - 1] :: r in rows[..n];
      Parities(rows, k, n - 1) + if rows[n - 1] >= k then [rows[n - 1]] else []
  }

  lemma {:induction false} ParitiesDistinct(rows: seq<nat>, k: nat, n: nat)
    requires n <= |rows| && Distinct(rows)
    ensures Distinct(Parities(rows, k, n))
  {
    if n == 0 {
    } else {
      ParitiesDistinct(rows, k, n - 1);
    }
  }

  ghost function DataRows(rows: seq<nat>, k: nat): set<nat> {
    set r | r in rows && r < k
  }

  lemma {:induction false} MissingCount(rows: seq<nat>, n: nat)
    ensures |Missing(rows, n)| + |DataRows(rows, n)| == n
  {
    if n == 0 {
      assert DataRows(rows, 0) == {};
    } else {
      MissingCount(rows, n - 1);
      assert DataRows(rows, n) == DataRows(rows, n - 1) + if n - 1 in rows then {n - 1} else {};
    }
  }

  lemma DataRowsStep(rows: seq<nat>, k: nat, n: nat)
    requires n < |rows| && Distinct(rows)
    ensures |DataRows(rows[..n + 1], k)| == |DataRows(rows[..n], k)| + if rows[n] < k then 1 else 0
  {
    var before, last := DataRows(rows[..n], k), rows[n];
    assert rows[..n + 1] == rows[..n] + [last];
    assert last !in rows[..n];
    assert DataRows(rows[..n + 1], k) == if last < k then before + {last} else before;
  }

  lemma {:induction false} ParityCount(rows: seq<nat>, k: nat, n: nat)
    requires n <= |rows| && Distinct(rows)
    ensures |Parities(rows, k, n)| + |DataRows(rows[..n], k)| == n
  {
    if n == 0 {
      assert DataRows(rows[..0], k) == {};
    } else {
      hide DataRows;
      ParityCount(rows, k, n - 1);
      DataRowsStep(rows, k, n - 1);
    }
  }

  function Pick(x: Vector, indices: seq<nat>): (y: Vector)
    requires forall i | 0 <= i < |indices| :: indices[i] < |x|
    ensures |y| == |indices|
  {
    seq(|indices|, i requires 0 <= i < |indices| => x[indices[i]])
  }

  /** Entries that are zero may be left out of a sum. */
  lemma {:induction false} DotOnMissing(x: Vector, v: Vector, rows: seq<nat>, n: nat)
    requires n <= |x| && n <= |v|
    requires forall j: nat | j < n && j in rows :: v[j] == 0
    ensures var js := Missing(rows, n); Dot(Pick(x, js), Pick(v, js), |js|) == Dot(x, v, n)
  {
    hide Mul, Xor, Dot, Pick;
    if n == 0 {
      EmptyDot(x, v);
      EmptyDot(Pick(x, []), Pick(v, []));
    } else {
      DotOnMissing(x, v, rows, n - 1);
      var js, js' := Missing(rows, n), Missing(rows, n - 1);
      if n - 1 in rows {
        assert js == js';
        DotComm(x, v, n);
        DotComm(x, v, n - 1);
        LastTermZero(v, x, n - 1);
      } else {
        assert js == js' + [n - 1];
        PickAppend(x, js', n - 1);
        PickAppend(v, js', n - 1);
        LastTerm(x, v, n - 1);
        DotAppend(Pick(x, js'), x[n - 1], Pick(v, js'), v[n - 1]);
      }
    }
  }

  lemma PickAppend(x: Vector, js: seq<nat>, j: nat)
    requires j < |x| && forall i | 0 <= i < |js| :: js[i] < |x|
    ensures Pick(x, js + [j]) == Pick(x, js) + [x[j]]
  {}

  lemma LastTerm(x: Vector, y: Vector, n: nat)
    requires n < |x| && n < |y|
    ensures Dot(x, y, n + 1) == Xor(Dot(x, y, n), Mul(x[n], y[n]))
  {}

  lemma DotAppend(x: Vector, a: bv8, y: Vector, b: bv8)
    requires |x| == |y|
    ensures Dot(x + [a], y + [b], |x| + 1) == Xor(Dot(x, y, |x|), Mul(a, b))
  {
    hide Mul, Xor;
    DotCongruent(x + [a], x, y + [b], y, |x|);
  }

  lemma UnitRowInKernel(k: nat, m: nat, rows: seq<nat>, v: Vector, r: nat)
    requires RowChoice(rows, m, k) && |v| == k && r < k && r in rows
    requires InKernel(Chosen(m, k, rows), v)
    ensures v[r] == 0
  {
    hide Mul, Xor, Dot, CauchyRow;
    var i :| 0 <= i < k && rows[i] == r;
    assert Dot(Chosen(m, k, rows)[i], v, k) == 0;
    DataRow(k, r);
    DotUnit(Unit(k, r), v, k, r);
  }

  lemma DataRow(k: nat, r: nat)
    requires r < k
    ensures CauchyRow(k, r) == Unit(k, r)
  {}

  lemma ParityRowInKernel(k: nat, m: nat, rows: seq<nat>, v: Vector, r: nat)
    requires RowChoice(rows, m, k) && |v| == k && k <= r && r in rows
    requires InKernel(Chosen(m, k, rows), v)
    ensures var js := Missing(rows, k); Dot(Pick(v, js), CauchyVec(Bytes(js), Byte(r)), |js|) == 0
  {
    hide Mul, Xor, Dot, GfInv, Byte, InKernel;
    var js := Missing(rows, k);
    forall j: nat | j < k && j in rows ensures v[j] == 0 {
      UnitRowInKernel(k, m, rows, v, j);
    }
    DotOnMissing(CauchyRow(k, r), v, rows, k);
    assert Pick(CauchyRow(k, r), js) == CauchyVec(Bytes(js), Byte(r));
    DotComm(CauchyVec(Bytes(js), Byte(r)), Pick(v, js), |js|);
    ChosenRow(k, m, rows, v, r);
  }

  lemma ChosenRow(k: nat, m: nat, rows: seq<nat>, v: Vector, r: nat)
    requires RowChoice(rows, m, k) && |v| == k && r in rows
    requires InKernel(Chosen(m, k, rows), v)
    ensures Dot(CauchyRow(k, r), v, k) == 0
  {
    hide Mul, Xor, Dot, CauchyRow;
    var i :| 0 <= i < k && rows[i] == r;
    assert Dot(Chosen(m, k, rows)[i], v, k) == 0;
  }

  function Bytes(js: seq<nat>): (bs: Vector)
    ensures |bs| == |js|
  {
    seq(|js|, i requires 0 <= i < |js| => Byte(js[i]))
  }

  lemma BytesDistinct(js: seq<nat>)
    requires Distinct(js) && forall i | 0 <= i < |js| :: js[i] < 256
    ensures Distinct(Bytes(js))
  {
    hide Byte;
    forall i, j | 0 <= i < j < |js| ensures Bytes(js)[i] != Bytes(js)[j] {
      ByteInjective(js[i], js[j]);
    }
  }

  /** Any k distinct rows of the encoding matrix form a nonsingular matrix. */
  lemma AnyRowsNonsingular(m: nat, k: nat, rows: seq<nat>)
    requires k <= m <= 256 && RowChoice(rows, m, k)
    ensures Nonsingular(Chosen(m, k, rows), k)
  {
    hide Mul, Xor, Dot, GfInv, Byte, InKernel, CauchyRow, CauchyVec;
    forall v: Vector | |v| == k && InKernel(Chosen(m, k, rows), v) ensures v == Zeros(k) {
      ChosenKernel(m, k, rows, v);
    }
  }

  /** The parity rows are at least as many as the data rows that are not chosen. */
  lemma EnoughParities(m: nat, k: nat, rows: seq<nat>)
    requires RowChoice(rows, m, k)
    ensures |Missing(rows, k)| == |Parities(rows, k, k)|
    ensures Distinct(Missing(rows, k)) && Distinct(Parities(rows, k, k))
    ensures forall r | r in Parities(rows, k, k) :: k <= r < m && r in rows
    ensures forall j: nat :: j in Missing(rows, k) <==> j < k && j !in rows
  {
    assert rows[..k] == rows;
    MissingCount(rows, k);
    MissingFacts(rows, k);
    ParityCount(rows, k, k);
    ParitiesDistinct(rows, k, k);
  }

  /** A kernel vector of the chosen rows solves the Cauchy system of the missing columns and the parity rows. */
  lemma KernelSolvesCauchy(m: nat, k: nat, rows: seq<nat>, v: Vector, r: bv8)
    requires k <= m <= 256 && RowChoice(rows, m, k) && |v| == k && InKernel(Chosen(m, k, rows), v)
    requires r in Bytes(Parities(rows, k, k))
    ensures r !in Bytes(Missing(rows, k))
    ensures var js := Missing(rows, k); Dot(Pick(v, js), CauchyVec(Bytes(js), r), |js|) == 0
  {
    hide Mul, Xor, Dot, GfInv, Byte, InKernel, CauchyRow, CauchyVec, Missing, Parities;
    var js, rs := Missing(rows, k), Parities(rows, k, k);
    EnoughParities(m, k, rows);
    var i :| 0 <= i < |rs| && Bytes(rs)[i] == r;
    assert rs[i] in rs;
    ParityRowInKernel(k, m, rows, v, rs[i]);
    forall j | 0 <= j < |js| ensures Bytes(js)[j] != r {
      ByteInjective(js[j], rs[i]);
    }
  }

  /** So it is zero. */
  lemma ChosenKernel(m: nat, k: nat, rows: seq<nat>, v: Vector)
    requires k <= m <= 256 && RowChoice(rows, m, k) && |v| == k && InKernel(Chosen(m, k, rows), v)
    ensures v == Zeros(k)
  {
    hide Mul, Xor, Dot, GfInv, Byte, InKernel, CauchyRow, CauchyVec, Missing, Parities, Bytes;
    var js, rs := Missing(rows, k), Parities(rows, k, k);
    EnoughParities(m, k, rows);
    BytesDistinct(js);
    BytesDistinct(rs);
    forall r | r in Bytes(rs)
      ensures r !in Bytes(js) && Dot(Pick(v, js), CauchyVec(Bytes(js), r), |js|) == 0
    {
      KernelSolvesCauchy(m, k, rows, v, r);
    }
    CauchyTrivialKernel(Pick(v, js), Bytes(js), Bytes(rs));
    forall j | 0 <= j < k ensures v[j] == 0 {
      if j in rows {
        UnitRowInKernel(k, m, rows, v, j);
      } else {
        assert j in js;
        var i :| 0 <= i < |js| && js[i] == j;
        assert Pick(v, js)[i] == Zeros(|js|)[i];
      }
    }
  }

  // ---------- The limit of 256 rows is sharp ----------

  ghost predicate EveryChoiceNonsingular(m: nat, k: nat) {
    forall rows: seq<nat> | RowChoice(rows, m, k) :: Nonsingular(Chosen(m, k, rows), k)
  }

  /** All data rows but row j, with parity row i in its place. */
  function Replace(k: nat, j: nat, i: nat): (rows: seq<nat>) {
    seq(k, t requires 0 <= t => if t == j then i else t)
  }

  /** Row i has a zero in column j, so it cannot stand in for data row j. */
  lemma RepeatedByteIsSingular(m: nat, k: nat, i: nat, j: nat)
    requires j < k <= i < m && Byte(i) == Byte(j)
    ensures RowChoice(Replace(k, j, i), m, k)
    ensures !Nonsingular(Chosen(m, k, Replace(k, j, i)), k)
  {
    hide Mul, Xor, Dot, GfInv, Byte;
    var rows, v := Replace(k, j, i), Unit(k, j);
    var b := Chosen(m, k, rows);
    forall t | 0 <= t < k ensures Dot(b[t], v, k) == 0 {
      DotComm(b[t], v, k);
      DotUnit(v, b[t], k, j);
      XorLaws(Byte(i), Byte(j));
      GfInvZero();
    }
    assert v[j] != Zeros(k)[j];
  }

  lemma ByteWraps(i: nat, j: nat)
    requires i % 256 == j % 256
    ensures Byte(i) == Byte(j)
  {}

  lemma GfInvZero()
    ensures GfInv(0) == 0
  {}

  lemma {:induction false} NoParities(rows: seq<nat>, k: nat, n: nat)
    requires n <= |rows| && forall i | 0 <= i < n :: rows[i] < k
    ensures Parities(rows, k, n) == []
  {
    if n == 0 {
    } else {
      NoParities(rows, k, n - 1);
    }
  }

  /** When there are only data rows, a choice of all of them is a permutation of the identity. */
  lemma DataRowsNonsingular(k: nat, rows: seq<nat>)
    requires RowChoice(rows, k, k)
    ensures Nonsingular(Chosen(k, k, rows), k)
  {
    hide Mul, Xor, Dot, GfInv, Byte, InKernel, Missing, Parities;
    EnoughParities(k, k, rows);
    NoParities(rows, k, k);
    forall v: Vector | |v| == k && InKernel(Chosen(k, k, rows), v) ensures v == Zeros(k) {
      forall j | 0 <= j < k ensures v[j] == 0 {
        assert j !in Missing(rows, k);
        UnitRowInKernel(k, k, rows, v, j);
      }
    }
  }

  lemma NoRows(m: nat, rows: seq<nat>)
    requires RowChoice(rows, m, 0)
    ensures Nonsingular(Chosen(m, 0, rows), 0)
  {}

  /** Every choice of k rows is invertible exactly up to 256 rows in all, unless there is no choice to make: without data
      shards, or without parity shards. */
  lemma CauchyLimit(m: nat, k: nat)
    requires k <= m
    ensures EveryChoiceNonsingular(m, k) <==> m <= 256 || k == 0 || k == m
  {
    hide Nonsingular, Chosen, Replace, Byte;
    if m <= 256 || k == 0 || k == m {
      forall rows: seq<nat> | RowChoice(rows, m, k) ensures Nonsingular(Chosen(m, k, rows), k) {
        if k == 0 {
          NoRows(m, rows);
        } else if k == m {
          DataRowsNonsingular(k, rows);
        } else {
          AnyRowsNonsingular(m, k, rows);
        }
      }
    } else if k <= 256 {
      ByteWraps(256, 0);
      RepeatedByteIsSingular(m, k, 256, 0);
    } else {
      ByteWraps(k, k - 256);
      RepeatedByteIsSingular(m, k, k, k - 256);
    }
  }

  // ---------- Building the matrix ----------

  /** The entry is the multiplicative inverse of the byte, or 0 for the byte 0. */
  ghost predicate Inverts(entry: bv8, byte: bv8) {
    if byte == 0 then entry == 0 else Mul(entry, byte) == 1
  }

  lemma ParityEntryInverts(k: nat, i: nat, j: nat)
    requires j < k <= i
    ensures Inverts(CauchyRow(k, i)[j], (i % 256) as bv8 ^ (j % 256) as bv8)
  {
    var byte := Xor(Byte(i), Byte(j));
    hide GfInv, Mul;
    if byte == 0 {
      GfInvZero();
    } else {
      GfInvIsInverse(byte);
    }
  }

  method GfGenCauchy1Matrix(a: array2<bv8>, m: nat, k: nat)
    requires a.Length0 == m && a.Length1 == k && k <= m
    modifies a
    ensures forall i, j | 0 <= i < k && 0 <= j < k :: a[i, j] == if i == j then 1 else 0
    ensures forall i, j | k <= i < m && 0 <= j < k :: Inverts(a[i, j], (i % 256) as bv8 ^ (j % 256) as bv8)
    ensures Rows(a) == CauchyMatrix(m, k)
  {
    hide GfInv, Xor, Byte, Inverts;
    forall i, j | 0 <= i < m && 0 <= j < k {
      a[i, j] := 0;
    }
    for i := 0 to k
      invariant forall r, c | 0 <= r < m && 0 <= c < k :: a[r, c] == if r == c && r < i then 1 else 0
    {
      a[i, i] := 1;
    }
    for i := k to m
      invariant forall r, c | 0 <= r < i && 0 <= c < k :: a[r, c] == CauchyRow(k, r)[c]
    {
      for j := 0 to k
        invariant forall r, c | 0 <= r < i && 0 <= c < k :: a[r, c] == CauchyRow(k, r)[c]
        invariant forall c | 0 <= c < j :: a[i, c] == CauchyRow(k, i)[c]
      {
        a[i, j] := GfInv(Xor(Byte(i), Byte(j)));
      }
    }
    forall r | 0 <= r < m ensures Rows(a)[r] == CauchyMatrix(m, k)[r] {
      assert Rows(a)[r] == CauchyRow(k, r);
    }
    forall i, j | k <= i < m && 0 <= j < k ensures Inverts(a[i, j], (i % 256) as bv8 ^ (j % 256) as bv8) {
      ParityEntryInverts(k, i, j);
    }
  }
}
