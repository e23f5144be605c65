/** Inversion of a square matrix in place, by Gauss-Jordan elimination with row swaps. */
module GaussJordan {
  import opened GaloisField
  import opened GfTables
  import opened Matrices

  // ---------- What an inverse is ----------

  ghost predicate InKernel(m: Matrix, v: Vector)
    requires IsMatrix(m, |m|, |v|)
  {
    forall r | 0 <= r < |m| :: Dot(m[r], v, |v|) == 0
  }

  /** Only the zero vector is mapped to zero. */
  ghost predicate Nonsingular(m: Matrix, n: nat)
    requires IsMatrix(m, n, n)
  {
    forall v: Vector | |v| == n && InKernel(m, v) :: v == Zeros(n)
  }

  ghost predicate IsInverse(b: Matrix, a: Matrix, n: nat)
    requires IsMatrix(a, n, n) && IsMatrix(b, n, n)
  {
    forall x: Vector | |x| == n :: Apply(b, Apply(a, x)) == x && Apply(a, Apply(b, x)) == x
  }

  // ---------- Row operations ----------

  function SwapRows(m: Matrix, i: nat, j: nat): (m': Matrix)
    requires IsMatrix(m, |m|, |m|) && i < |m| && j < |m|
    ensures IsMatrix(m', |m|, |m|)
  {
    m[i := m[j]][j := m[i]]
  }

  function ScaleRow(m: Matrix, i: nat, c: bv8): (m': Matrix)
    requires IsMatrix(m, |m|, |m|) && i < |m|
    ensures IsMatrix(m', |m|, |m|)
  {
    m[i := Times(c, m[i])]
  }

  /** Adds c times row i to row j. */
  function AddRow(m: Matrix, j: nat, i: nat, c: bv8): (m': Matrix)
    requires IsMatrix(m, |m|, |m|) && i < |m| && j < |m|
    ensures IsMatrix(m', |m|, |m|)
  {
    m[j := Plus(m[j], Times(c, m[i]))]
  }

  /** Every row of `b`, applied to the image of x under `a0`, gives what the same row of `a` gives on x. */
  ghost predicate Tracks(b: Matrix, a: Matrix, a0: Matrix, n: nat)
    requires IsMatrix(a0, n, n) && IsMatrix(a, n, n) && IsMatrix(b, n, n)
  {
    forall x: Vector, r | |x| == n && 0 <= r < n :: Dot(b[r], Apply(a0, x), n) == Dot(a[r], x, n)
  }

  ghost predicate SameKernel(a: Matrix, b: Matrix, n: nat)
    requires IsMatrix(a, n, n) && IsMatrix(b, n, n)
  {
    forall v: Vector | |v| == n :: InKernel(a, v) <==> InKernel(b, v)
  }

  lemma SwapSound(a: Matrix, b: Matrix, a0: Matrix, n: nat, i: nat, j: nat)
    requires IsMatrix(a0, n, n) && IsMatrix(a, n, n) && IsMatrix(b, n, n) && i < n && j < n
    ensures Tracks(b, a, a0, n) ==> Tracks(SwapRows(b, i, j), SwapRows(a, i, j), a0, n)
    ensures SameKernel(SwapRows(a, i, j), a, n)
  {
    hide Xor, Mul, Dot;
    var a' := SwapRows(a, i, j);
    forall v: Vector | |v| == n ensures InKernel(a', v) <==> InKernel(a, v) {
      assert a'[i] == a[j] && a'[j] == a[i];
      if InKernel(a', v) {
        forall r | 0 <= r < n ensures Dot(a[r], v, n) == 0 {
          assert Dot(a'[if r == i then j else if r == j then i else r], v, n) == 0;
        }
      }
    }
  }

  lemma ScaleSound(a: Matrix, b: Matrix, a0: Matrix, n: nat, i: nat, c: bv8)
    requires IsMatrix(a0, n, n) && IsMatrix(a, n, n) && IsMatrix(b, n, n) && i < n && c != 0
    ensures Tracks(b, a, a0, n) ==> Tracks(ScaleRow(b, i, c), ScaleRow(a, i, c), a0, n)
    ensures SameKernel(ScaleRow(a, i, c), a, n)
  {
    hide Xor, Mul, Dot;
    var a', b' := ScaleRow(a, i, c), ScaleRow(b, i, c);
    if Tracks(b, a, a0, n) {
      forall x: Vector, r | |x| == n && 0 <= r < n ensures Dot(b'[r], Apply(a0, x), n) == Dot(a'[r], x, n) {
        DotTimes(c, a[i], x, n);
        DotTimes(c, b[i], Apply(a0, x), n);
      }
    }
    forall v: Vector | |v| == n ensures InKernel(a', v) <==> InKernel(a, v) {
      DotTimes(c, a[i], v, n);
      MulCancel(c, Dot(a[i], v, n));
      if InKernel(a', v) {
        forall r | 0 <= r < n ensures Dot(a[r], v, n) == 0 {
          assert Dot(a'[r], v, n) == 0;
        }
      }
    }
  }

  lemma AddRowSound(a: Matrix, b: Matrix, a0: Matrix, n: nat, j: nat, i: nat, c: bv8)
    requires IsMatrix(a0, n, n) && IsMatrix(a, n, n) && IsMatrix(b, n, n) && i < n && j < n && i != j
    ensures Tracks(b, a, a0, n) ==> Tracks(AddRow(b, j, i, c), AddRow(a, j, i, c), a0, n)
    ensures SameKernel(AddRow(a, j, i, c), a, n)
  {
    hide Xor, Mul, Dot;
    var a', b' := AddRow(a, j, i, c), AddRow(b, j, i, c);
    if Tracks(b, a, a0, n) {
      forall x: Vector, r | |x| == n && 0 <= r < n ensures Dot(b'[r], Apply(a0, x), n) == Dot(a'[r], x, n) {
        AddedRow(a, n, j, i, c, x);
        AddedRow(b, n, j, i, c, Apply(a0, x));
      }
    }
    forall v: Vector | |v| == n ensures InKernel(a', v) <==> InKernel(a, v) {
      AddedRow(a, n, j, i, c, v);
      MulZero(c);
      XorLaws(Dot(a[j], v, n), 0);
      assert a'[i] == a[i];
      if InKernel(a', v) {
        forall r | 0 <= r < n ensures Dot(a[r], v, n) == 0 {
          assert Dot(a'[r], v, n) == 0;
        }
      }
    }
  }

  lemma AddedRow(a: Matrix, n: nat, j: nat, i: nat, c: bv8, x: Vector)
    requires IsMatrix(a, n, n) && i < n && j < n && |x| == n
    ensures Dot(AddRow(a, j, i, c)[j], x, n) == Xor(Dot(a[j], x, n), Mul(c, Dot(a[i], x, n)))
  {
    hide Xor, Mul, Dot;
    DotPlus(a[j], Times(c, a[i]), x, n);
    DotTimes(c, a[i], x, n);
  }

  // ---------- Progress of the elimination ----------

  /** The first i columns are already those of the identity. */
  ghost predicate Reduced(a: Matrix, n: nat, i: nat)
    requires IsMatrix(a, n, n) && i <= n
  {
    forall r, c | 0 <= r < n && 0 <= c < i :: a[r][c] == if r == c then 1 else 0
  }

  lemma ScaleReduced(a: Matrix, n: nat, i: nat)
    requires IsMatrix(a, n, n) && i < n && Reduced(a, n, i) && a[i][i] != 0
    ensures var a' := ScaleRow(a, i, GfInv(a[i][i])); Reduced(a', n, i) && a'[i][i] == 1
  {
    hide Xor, Mul, GfInv;
    var c := GfInv(a[i][i]);
    GfInvIsInverse(a[i][i]);
    MulZero(c);
  }

  lemma AddRowReduced(a: Matrix, n: nat, i: nat, j: nat)
    requires IsMatrix(a, n, n) && i < n && j < n && i != j && Reduced(a, n, i) && a[i][i] == 1
    ensures var a' := AddRow(a, j, i, a[j][i]); Reduced(a', n, i) && a'[j][i] == 0
  {
    hide Xor, Mul;
    var c := a[j][i];
    var a' := AddRow(a, j, i, c);
    MulOne(c);
    XorLaws(c, c);
    forall k | 0 <= k < i ensures a'[j][k] == a[j][k] {
      MulZero(c);
      XorLaws(a[j][k], 0);
    }
  }

  /** Without a pivot in column i the matrix kills a nonzero vector. */
  lemma DeadColumn(a: Matrix, n: nat, i: nat) returns (v: Vector)
    requires IsMatrix(a, n, n) && i < n && Reduced(a, n, i)
    requires forall r | i <= r < n :: a[r][i] == 0
    ensures |v| == n && v != Zeros(n) && InKernel(a, v)
  {
    hide Xor, Mul;
    v := seq(n, k requires 0 <= k < n => if k == i then 1 else if k < i then a[k][i] else 0);
    assert v[i] != Zeros(n)[i];
    forall r | 0 <= r < n ensures Dot(a[r], v, n) == 0 {
      DotZeroTail(a[r], v, i + 1, n);
      DotUnit(a[r], v, i, r);
      MulOne(a[r][i]);
      XorLaws(a[r][i], a[r][i]);
    }
  }

  lemma IdentityKernel(n: nat, v: Vector)
    requires |v| == n && InKernel(Identity(n), v)
    ensures v == Zeros(n)
  {
    forall r | 0 <= r < n ensures v[r] == 0 {
      DotUnit(Identity(n)[r], v, n, r);
    }
  }

  lemma LeftInverse(b: Matrix, a0: Matrix, n: nat, x: Vector)
    requires IsMatrix(a0, n, n) && IsMatrix(b, n, n) && |x| == n
    requires Tracks(b, Identity(n), a0, n)
    ensures Apply(b, Apply(a0, x)) == x
  {
    hide Xor, Mul, Dot;
    forall r | 0 <= r < n ensures Apply(b, Apply(a0, x))[r] == x[r] {
      assert Dot(b[r], Apply(a0, x), n) == Dot(Identity(n)[r], x, n);
      DotUnit(Identity(n)[r], x, n, r);
    }
  }

  /** A left inverse with a trivial kernel is a right inverse. */
  lemma RightInverse(b: Matrix, a0: Matrix, n: nat, x: Vector)
    requires IsMatrix(a0, n, n) && IsMatrix(b, n, n) && |x| == n
    requires Tracks(b, Identity(n), a0, n) && SameKernel(b, Identity(n), n)
    ensures Apply(a0, Apply(b, x)) == x
  {
    hide Xor, Mul, Dot, Tracks;
    var bx := Apply(b, x);
    var y := Plus(Apply(a0, bx), x);
    LeftInverse(b, a0, n, bx);
    ApplyPlus(b, Apply(a0, bx), x);
    PlusCancel(bx, bx);
    forall r | 0 <= r < n ensures Dot(b[r], y, n) == 0 {
      assert Apply(b, y)[r] == Zeros(n)[r];
    }
    IdentityKernel(n, y);
    PlusCancel(Apply(a0, bx), x);
  }

  /** Once the matrix has become the identity, the other one is its inverse on both sides. */
  lemma FinishedIsInverse(b: Matrix, a0: Matrix, n: nat)
    requires IsMatrix(a0, n, n) && IsMatrix(b, n, n)
    requires Tracks(b, Identity(n), a0, n)
    requires SameKernel(b, Identity(n), n) && SameKernel(Identity(n), a0, n)
    ensures IsInverse(b, a0, n) && Nonsingular(a0, n)
  {
    hide Tracks, InKernel, Apply;
    forall x: Vector | |x| == n ensures Apply(b, Apply(a0, x)) == x && Apply(a0, Apply(b, x)) == x {
      LeftInverse(b, a0, n, x);
      RightInverse(b, a0, n, x);
    }
    forall v: Vector | |v| == n && InKernel(a0, v) ensures v == Zeros(n) {
      IdentityKernel(n, v);
    }
  }

  lemma ReducedIsIdentity(a: Matrix, n: nat)
    requires IsMatrix(a, n, n) && Reduced(a, n, n)
    ensures a == Identity(n)
  {
    forall r | 0 <= r < n ensures a[r] == Identity(n)[r] {
      assert a[r] == Unit(n, r);
    }
  }

  // ---------- One invariant for the whole elimination ----------

  /** Both matrices have undergone the same reversible row operations, and i columns are done. */
  ghost predicate Progress(a: Matrix, b: Matrix, a0: Matrix, n: nat, i: nat)
    requires IsMatrix(a0, n, n) && IsMatrix(a, n, n) && IsMatrix(b, n, n) && i <= n
  {
    && Tracks(b, a, a0, n)
    && SameKernel(a, a0, n) && SameKernel(b, Identity(n), n)
    && Reduced(a, n, i)
  }

  /** Column i is that of the identity in its first j rows and in row i. */
  ghost predicate Cleared(a: Matrix, n: nat, i: nat, j: nat)
    requires IsMatrix(a, n, n) && i < n && j <= n
  {
    a[i][i] == 1 && forall r | 0 <= r < j && r != i :: a[r][i] == 0
  }

  lemma StartProgress(a0: Matrix, n: nat)
    requires IsMatrix(a0, n, n)
    ensures Progress(a0, Identity(n), a0, n, 0)
  {
    hide Xor, Mul;
    forall x: Vector, r | |x| == n && 0 <= r < n ensures Dot(Identity(n)[r], Apply(a0, x), n) == Dot(a0[r], x, n) {
      DotUnit(Identity(n)[r], Apply(a0, x), n, r);
    }
  }

  lemma SwapProgress(a: Matrix, b: Matrix, a0: Matrix, n: nat, i: nat, j: nat)
    requires IsMatrix(a0, n, n) && IsMatrix(a, n, n) && IsMatrix(b, n, n) && i < j < n
    requires Progress(a, b, a0, n, i)
    ensures Progress(SwapRows(a, i, j), SwapRows(b, i, j), a0, n, i)
  {
    hide Tracks, InKernel;
    SwapSound(a, b, a0, n, i, j);
    SwapSound(b, a, a0, n, i, j);
  }

  lemma ScaleProgress(a: Matrix, b: Matrix, a0: Matrix, n: nat, i: nat)
    requires IsMatrix(a0, n, n) && IsMatrix(a, n, n) && IsMatrix(b, n, n) && i < n
    requires Progress(a, b, a0, n, i) && a[i][i] != 0
    ensures var c := GfInv(a[i][i]);
            && Progress(ScaleRow(a, i, c), ScaleRow(b, i, c), a0, n, i)
            && Cleared(ScaleRow(a, i, c), n, i, 0)
  {
    hide Tracks, InKernel, GfInv;
    GfInvIsInverse(a[i][i]);
    ScaleSound(a, b, a0, n, i, GfInv(a[i][i]));
    ScaleSound(b, a, a0, n, i, GfInv(a[i][i]));
    ScaleReduced(a, n, i);
  }

  lemma AddRowProgress(a: Matrix, b: Matrix, a0: Matrix, n: nat, i: nat, j: nat)
    requires IsMatrix(a0, n, n) && IsMatrix(a, n, n) && IsMatrix(b, n, n) && i < n && j < n && i != j
    requires Progress(a, b, a0, n, i) && Cleared(a, n, i, j)
    ensures var c := a[j][i];
            && Progress(AddRow(a, j, i, c), AddRow(b, j, i, c), a0, n, i)
            && Cleared(AddRow(a, j, i, c), n, i, j + 1)
  {
    hide Tracks, InKernel, Xor, Mul;
    AddRowSound(a, b, a0, n, j, i, a[j][i]);
    AddRowSound(b, a, a0, n, j, i, a[j][i]);
    AddRowReduced(a, n, i, j);
  }

  lemma ColumnDone(a: Matrix, b: Matrix, a0: Matrix, n: nat, i: nat)
    requires IsMatrix(a0, n, n) && IsMatrix(a, n, n) && IsMatrix(b, n, n) && i < n
    requires Progress(a, b, a0, n, i) && Cleared(a, n, i, n)
    ensures Progress(a, b, a0, n, i + 1)
  {
    hide Tracks, SameKernel;
  }

  lemma AllDone(a: Matrix, b: Matrix, a0: Matrix, n: nat)
    requires IsMatrix(a0, n, n) && IsMatrix(a, n, n) && IsMatrix(b, n, n)
    requires Progress(a, b, a0, n, n)
    ensures a == Identity(n) && IsInverse(b, a0, n) && Nonsingular(a0, n)
  {
    hide Tracks, SameKernel;
    ReducedIsIdentity(a, n);
    FinishedIsInverse(b, a0, n);
  }

  lemma NoPivot(a: Matrix, b: Matrix, a0: Matrix, n: nat, i: nat)
    requires IsMatrix(a0, n, n) && IsMatrix(a, n, n) && IsMatrix(b, n, n) && i < n
    requires Progress(a, b, a0, n, i)
    requires forall r | i <= r < n :: a[r][i] == 0
    ensures exists v: Vector | |v| == n :: v != Zeros(n) && InKernel(a0, v)
    ensures !Nonsingular(a0, n)
  {
    hide Tracks, InKernel;
    var v := DeadColumn(a, n, i);
    assert InKernel(a0, v);
  }

  // ---------- The algorithm ----------

  ghost function Rows(m: array2<bv8>): (rows: Matrix)
    reads m
    ensures IsMatrix(rows, m.Length0, m.Length1)
    ensures forall r, c | 0 <= r < m.Length0 && 0 <= c < m.Length1 :: rows[r][c] == m[r, c]
  {
    seq(m.Length0, r requires 0 <= r < m.Length0 reads m =>
      seq(m.Length1, c requires 0 <= c < m.Length1 reads m => m[r, c]))
  }

  method SetIdentity(m: array2<bv8>, n: nat)
    requires m.Length0 == m.Length1 == n
    modifies m
    ensures Rows(m) == Identity(n)
  {
    for i := 0 to n
      invariant forall r, c | 0 <= r < i && 0 <= c < n :: m[r, c] == 0
    {
      for j := 0 to n
        invariant forall r, c | 0 <= r < i && 0 <= c < n :: m[r, c] == 0
        invariant forall c | 0 <= c < j :: m[i, c] == 0
      {
        m[i, j] := 0;
      }
    }
    for i := 0 to n
      invariant forall r, c | 0 <= r < n && 0 <= c < n :: m[r, c] == if r == c && r < i then 1 else 0
    {
      m[i, i] := 1;
    }
    forall r | 0 <= r < n ensures Rows(m)[r] == Identity(n)[r] {
      assert Rows(m)[r] == Unit(n, r);
    }
  }

  method SwapRowsOf(a: array2<bv8>, b: array2<bv8>, n: nat, i: nat, j: nat)
    requires a.Length0 == a.Length1 == b.Length0 == b.Length1 == n && a != b && i < j < n
    modifies a, b
    ensures Rows(a) == SwapRows(old(Rows(a)), i, j)
    ensures Rows(b) == SwapRows(old(Rows(b)), i, j)
  {
    for k := 0 to n
      invariant forall r, c | 0 <= r < n && 0 <= c < n ::
        && a[r, c] == (if c < k && r == i then old(a[j, c]) else if c < k && r == j then old(a[i, c]) else old(a[r, c]))
        && b[r, c] == (if c < k && r == i then old(b[j, c]) else if c < k && r == j then old(b[i, c]) else old(b[r, c]))
    {
      var temp := a[i, k];
      a[i, k] := a[j, k];
      a[j, k] := temp;
      temp := b[i, k];
      b[i, k] := b[j, k];
      b[j, k] := temp;
    }
    forall r | 0 <= r < n
      ensures Rows(a)[r] == SwapRows(old(Rows(a)), i, j)[r] && Rows(b)[r] == SwapRows(old(Rows(b)), i, j)[r]
    {}
  }

  method ScaleRowOf(a: array2<bv8>, b: array2<bv8>, n: nat, i: nat, temp: bv8)
    requires a.Length0 == a.Length1 == b.Length0 == b.Length1 == n && a != b && i < n
    modifies a, b
    ensures Rows(a) == ScaleRow(old(Rows(a)), i, temp)
    ensures Rows(b) == ScaleRow(old(Rows(b)), i, temp)
  {
    hide Mul;
    for j := 0 to n
      invariant forall r, c | 0 <= r < n && 0 <= c < n ::
        && a[r, c] == (if c < j && r == i then Mul(temp, old(a[r, c])) else old(a[r, c]))
        && b[r, c] == (if c < j && r == i then Mul(temp, old(b[r, c])) else old(b[r, c]))
    {
      MulComm(a[i, j], temp);
      MulComm(b[i, j], temp);
      a[i, j] := Mul(a[i, j], temp);
      b[i, j] := Mul(b[i, j], temp);
    }
    forall r | 0 <= r < n
      ensures Rows(a)[r] == ScaleRow(old(Rows(a)), i, temp)[r] && Rows(b)[r] == ScaleRow(old(Rows(b)), i, temp)[r]
    {}
  }

  method AddRowOf(a: array2<bv8>, b: array2<bv8>, n: nat, j: nat, i: nat, temp: bv8)
    requires a.Length0 == a.Length1 == b.Length0 == b.Length1 == n && a != b && i < n && j < n && i != j
    modifies a, b
    ensures Rows(a) == AddRow(old(Rows(a)), j, i, temp)
    ensures Rows(b) == AddRow(old(Rows(b)), j, i, temp)
  {
    hide Mul, Xor;
    for k := 0 to n
      invariant forall r, c | 0 <= r < n && 0 <= c < n ::
        && a[r, c] == (if c < k && r == j then Xor(old(a[j, c]), Mul(temp, old(a[i, c]))) else old(a[r, c]))
        && b[r, c] == (if c < k && r == j then Xor(old(b[j, c]), Mul(temp, old(b[i, c]))) else old(b[r, c]))
    {
      b[j, k] := Xor(b[j, k], Mul(temp, b[i, k]));
      a[j, k] := Xor(a[j, k], Mul(temp, a[i, k]));
    }
    forall r | 0 <= r < n
      ensures Rows(a)[r] == AddRow(old(Rows(a)), j, i, temp)[r] && Rows(b)[r] == AddRow(old(Rows(b)), j, i, temp)[r]
    {}
  }

  /** The first row from i + 1 on with a nonzero entry in column i, or n. */
  method FindPivot(m: array2<bv8>, n: nat, i: nat) returns (j: nat)
    requires m.Length0 == m.Length1 == n && i < n
    ensures i < j <= n
    ensures forall r | i < r < j :: m[r, i] == 0
    ensures j < n ==> m[j, i] != 0
  {
    j := i + 1;
    while j < n && m[j, i] == 0
      invariant i < j <= n
      invariant forall r | i < r < j :: m[r, i] == 0
    {
      j := j + 1;
    }
  }

  /** Subtracts multiples of row i from every other row, until column i is that of the identity. */
  method EliminateColumn(a: array2<bv8>, b: array2<bv8>, n: nat, i: nat, ghost a0: Matrix)
    requires a.Length0 == a.Length1 == b.Length0 == b.Length1 == n && a != b && i < n && IsMatrix(a0, n, n)
    requires Progress(Rows(a), Rows(b), a0, n, i) && Cleared(Rows(a), n, i, 0)
    modifies a, b
    ensures Progress(Rows(a), Rows(b), a0, n, i + 1)
  {
    hide Progress, Cleared, AddRow, Rows;
    for j := 0 to n
      invariant Progress(Rows(a), Rows(b), a0, n, i) && Cleared(Rows(a), n, i, j)
    {
      if j == i {
        SkipPivot(Rows(a), n, i);
        continue;
      }
      AddRowProgress(Rows(a), Rows(b), a0, n, i, j);
      var temp := a[j, i];
      AddRowOf(a, b, n, j, i, temp);
    }
    ColumnDone(Rows(a), Rows(b), a0, n, i);
  }

  lemma SkipPivot(a: Matrix, n: nat, i: nat)
    requires IsMatrix(a, n, n) && i < n && Cleared(a, n, i, i)
    ensures Cleared(a, n, i, i + 1)
  {}

  /** gf_invert_matrix: 0 exactly on nonsingular input. */
  method GfInvertMatrix(inMat: array2<bv8>, outMat: array2<bv8>, n: nat) returns (ret: int)
    requires inMat.Length0 == inMat.Length1 == outMat.Length0 == outMat.Length1 == n && inMat != outMat
    modifies inMat, outMat
    ensures ret == 0 || ret == -1
    ensures ret == 0 <==> Nonsingular(old(Rows(inMat)), n)
    ensures ret == 0 ==> Rows(inMat) == Identity(n) && IsInverse(Rows(outMat), old(Rows(inMat)), n)
    ensures ret == -1 ==> exists v: Vector | |v| == n :: v != Zeros(n) && InKernel(old(Rows(inMat)), v)
  {
    hide Progress, Cleared, SwapRows, ScaleRow, Rows, GfInv, InKernel, IsInverse, Nonsingular;
    ghost var a0 := Rows(inMat);
    SetIdentity(outMat, n);
    StartProgress(a0, n);
    for i := 0 to n
      invariant Progress(Rows(inMat), Rows(outMat), a0, n, i)
    {
      if inMat[i, i] == 0 {
        var j := FindPivot(inMat, n, i);
        if j == n {
          NoPivot(Rows(inMat), Rows(outMat), a0, n, i);
          return -1;
        }
        SwapProgress(Rows(inMat), Rows(outMat), a0, n, i, j);
        PivotMoved(Rows(inMat), i, j);
        SwapRowsOf(inMat, outMat, n, i, j);
      }
      ScaleProgress(Rows(inMat), Rows(outMat), a0, n, i);
      var temp := GfInv(inMat[i, i]);
      ScaleRowOf(inMat, outMat, n, i, temp);
      EliminateColumn(inMat, outMat, n, i, a0);
    }
    AllDone(Rows(inMat), Rows(outMat), a0, n);
    return 0;
  }

  lemma PivotMoved(a: Matrix, i: nat, j: nat)
    requires IsMatrix(a, |a|, |a|) && i < |a| && j < |a|
    ensures SwapRows(a, i, j)[i] == a[j]
  {}
}
