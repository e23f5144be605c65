/** Vectors and matrices over GF(2^8), as sequences of bytes and of rows. */
module Matrices {
  import opened GaloisField

  type Vector = seq<bv8>
  type Matrix = seq<seq<bv8>>

  predicate Distinct<T(==)>(s: seq<T>) {
    forall i, j | 0 <= i < j < |s| :: s[i] != s[j]
  }

  predicate IsMatrix(m: Matrix, rows: nat, cols: nat) {
    |m| == rows && forall r | 0 <= r < rows :: |m[r]| == cols
  }

  /** The sum of the first n products, in the order the encoding loops accumulate it. */
  function Dot(x: Vector, y: Vector, n: nat): bv8
    requires n <= |x| && n <= |y|
  {
    if n == 0 then 0 else Xor(Dot(x, y, n - 1), Mul(x[n - 1], y[n - 1]))
  }

  function Plus(x: Vector, y: Vector): (z: Vector)
    requires |x| == |y|
  {
    seq(|x|, i requires 0 <= i < |x| => Xor(x[i], y[i]))
  }

  function Times(c: bv8, x: Vector): (z: Vector) {
    seq(|x|, i requires 0 <= i < |x| => Mul(c, x[i]))
  }

  function Zeros(n: nat): (z: Vector) {
    seq(n, _ => 0)
  }

  function Unit(n: nat, r: nat): (z: Vector) {
    seq(n, i => if i == r then 1 else 0)
  }

  function Identity(n: nat): (m: Matrix) {
    seq(n, r requires 0 <= r => Unit(n, r))
  }

  /** The matrix-vector product. */
  function Apply(m: Matrix, x: Vector): (y: Vector)
    requires forall r | 0 <= r < |m| :: |m[r]| == |x|
    ensures |y| == |m|
  {
    seq(|m|, r requires 0 <= r < |m| => Dot(m[r], x, |x|))
  }

  lemma {:induction false} DotCongruent(x: Vector, x': Vector, y: Vector, y': Vector, n: nat)
    requires n <= |x| && n <= |x'| && n <= |y| && n <= |y'|
    requires forall i | 0 <= i < n :: x[i] == x'[i] && y[i] == y'[i]
    ensures Dot(x, y, n) == Dot(x', y', n)
  {
    hide Xor, Mul;
    if n == 0 {
    } else {
      DotCongruent(x, x', y, y', n - 1);
    }
  }

  lemma {:induction false} DotComm(x: Vector, y: Vector, n: nat)
    requires n <= |x| && n <= |y|
    ensures Dot(x, y, n) == Dot(y, x, n)
  {
    hide Xor, Mul;
    if n == 0 {
    } else {
      DotComm(x, y, n - 1);
      MulComm(x[n - 1], y[n - 1]);
    }
  }

  lemma {:induction false} DotPlus(x: Vector, y: Vector, z: Vector, n: nat)
    requires n <= |x| == |y| && n <= |z|
    ensures Dot(Plus(x, y), z, n) == Xor(Dot(x, z, n), Dot(y, z, n))
    ensures Dot(z, Plus(x, y), n) == Xor(Dot(z, x, n), Dot(z, y, n))
  {
    hide Xor, Mul;
    if n == 0 {
      XorLaws(0, 0);
    } else {
      DotPlus(x, y, z, n - 1);
      var i := n - 1;
      MulXorLeft(x[i], y[i], z[i]);
      MulXor(z[i], x[i], y[i]);
      XorSwap(Dot(x, z, i), Dot(y, z, i), Mul(x[i], z[i]), Mul(y[i], z[i]));
      XorSwap(Dot(z, x, i), Dot(z, y, i), Mul(z[i], x[i]), Mul(z[i], y[i]));
    }
  }

  lemma {:induction false} DotTimes(c: bv8, x: Vector, z: Vector, n: nat)
    requires n <= |x| && n <= |z|
    ensures Dot(Times(c, x), z, n) == Mul(c, Dot(x, z, n))
  {
    hide Xor, Mul;
    if n == 0 {
      MulZero(c);
    } else {
      DotTimes(c, x, z, n - 1);
      MulAssoc(c, x[n - 1], z[n - 1]);
      MulXor(c, Dot(x, z, n - 1), Mul(x[n - 1], z[n - 1]));
    }
  }

  /** A row that looks like a unit vector in its first n entries picks out one entry. */
  lemma {:induction false} DotUnit(x: Vector, y: Vector, n: nat, r: nat)
    requires n <= |x| && n <= |y|
    requires forall i | 0 <= i < n :: x[i] == if i == r then 1 else 0
    ensures Dot(x, y, n) == if r < n then y[r] else 0
  {
    hide Xor, Mul;
    if n == 0 {
    } else {
      DotUnit(x, y, n - 1, r);
      MulOne(y[n - 1]);
      MulZero(y[n - 1]);
      XorLaws(y[n - 1], 0);
      if r < n - 1 {
        XorLaws(y[r], 0);
      }
      XorLaws(0, 0);
    }
  }

  lemma {:induction false} DotZeroTail(x: Vector, y: Vector, n: nat, m: nat)
    requires n <= m <= |x| && m <= |y|
    requires forall i | n <= i < m :: y[i] == 0
    ensures Dot(x, y, m) == Dot(x, y, n)
  {
    hide Xor, Mul;
    if n == m {
    } else {
      DotZeroTail(x, y, n, m - 1);
      MulZero(x[m - 1]);
      XorLaws(Dot(x, y, n), 0);
    }
  }

  lemma ApplyPlus(m: Matrix, x: Vector, y: Vector)
    requires |x| == |y| && IsMatrix(m, |m|, |x|)
    ensures Apply(m, Plus(x, y)) == Plus(Apply(m, x), Apply(m, y))
  {
    hide Xor, Mul, Dot;
    forall r | 0 <= r < |m|
      ensures Apply(m, Plus(x, y))[r] == Plus(Apply(m, x), Apply(m, y))[r]
    {
      DotPlus(x, y, m[r], |x|);
    }
  }

  lemma PlusCancel(x: Vector, y: Vector)
    requires |x| == |y|
    ensures Plus(x, y) == Zeros(|x|) <==> x == y
  {
    hide Xor;
    forall i | 0 <= i < |x| ensures Plus(x, y)[i] == 0 <==> x[i] == y[i] {
      XorEqual(x[i], y[i]);
    }
    if Plus(x, y) == Zeros(|x|) {
      forall i | 0 <= i < |x| ensures x[i] == y[i] {
        assert Zeros(|x|)[i] == 0;
      }
    }
  }

  // ---------- Row combinations: the product of a row vector and a matrix ----------

  /** The sum of the first n rows of m, each scaled by the entry of v at its index. */
  function Comb(v: Vector, m: Matrix, n: nat, cols: nat): (row: Vector)
    requires n <= |v| && n <= |m| && forall r | 0 <= r < n :: |m[r]| == cols
    ensures |row| == cols
  {
    if n == 0 then Zeros(cols) else Plus(Comb(v, m, n - 1, cols), Times(v[n - 1], m[n - 1]))
  }

  function Column(m: Matrix, c: nat): (col: Vector)
    requires forall r | 0 <= r < |m| :: c < |m[r]|
  {
    seq(|m|, r requires 0 <= r < |m| => m[r][c])
  }

  lemma {:induction false} CombAt(v: Vector, m: Matrix, n: nat, cols: nat, c: nat)
    requires n <= |v| && n <= |m| && IsMatrix(m, |m|, cols) && c < cols
    ensures Comb(v, m, n, cols)[c] == Dot(v, Column(m, c), n)
  {
    hide Xor, Mul;
    if n == 0 {
    } else {
      CombAt(v, m, n - 1, cols, c);
    }
  }

  lemma {:induction false} DotZeros(x: Vector, n: nat)
    requires n <= |x|
    ensures Dot(Zeros(n), x, n) == 0
  {
    DotUnit(Zeros(n), x, n, n);
  }

  /** (v m) x == v (m x). */
  lemma {:induction false} DotComb(v: Vector, m: Matrix, n: nat, x: Vector)
    requires n <= |v| && n <= |m| && IsMatrix(m, |m|, |x|)
    ensures Dot(Comb(v, m, n, |x|), x, |x|) == Dot(v, Apply(m, x), n)
  {
    hide Xor, Mul;
    if n == 0 {
      DotZeros(x, |x|);
    } else {
      DotComb(v, m, n - 1, x);
      DotPlus(Comb(v, m, n - 1, |x|), Times(v[n - 1], m[n - 1]), x, |x|);
      DotTimes(v[n - 1], m[n - 1], x, |x|);
    }
  }

  lemma EmptyDot(x: Vector, y: Vector)
    ensures Dot(x, y, 0) == 0
  {}
}
