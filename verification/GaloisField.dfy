/** GF(2^8) modulo x^8+x^4+x^3+x^2+1: the ring laws of carry-less multiplication. */
module GaloisField {

  // ---------- Addition ----------

  function Xor(a: bv8, b: bv8): bv8 { a ^ b }

  lemma XorLaws(a: bv8, b: bv8)
    ensures Xor(a, 0) == a && Xor(0, a) == a && Xor(a, a) == 0
    ensures Xor(a, b) == Xor(b, a)
  {
    assert a ^ b == b ^ a;
    assert a ^ a == 0 && a ^ 0 == a && 0 ^ a == a;
  }

  lemma XorCancel(a: bv8, b: bv8)
    ensures Xor(Xor(a, b), b) == a && Xor(b, Xor(b, a)) == a
  {
    assert (a ^ b) ^ b == a;
    assert b ^ (b ^ a) == a;
  }

  lemma XorEqual(a: bv8, b: bv8)
    ensures Xor(a, b) == 0 <==> a == b
  {
    assert a ^ b == 0 <==> a == b;
  }

  lemma XorAssoc(a: bv8, b: bv8, c: bv8)
    ensures Xor(Xor(a, b), c) == Xor(a, Xor(b, c))
  {
    assert (a ^ b) ^ c == a ^ (b ^ c);
  }

  lemma XorSwap(a: bv8, b: bv8, c: bv8, d: bv8)
    ensures Xor(Xor(a, b), Xor(c, d)) == Xor(Xor(a, c), Xor(b, d))
  {
    assert (a ^ b) ^ (c ^ d) == (a ^ c) ^ (b ^ d);
  }

  // ---------- Multiplication by x, and by any element ----------

  function Xtime(s: bv8): bv8 { (s << 1) ^ (if s & 0x80 != 0 then 0x1d else 0) }

  /** The product of polynomials over GF(2) modulo 0x11d: one shifted copy of `b` for each bit of `a`. */
  function Mul(a: bv8, b: bv8): bv8
    decreases a
  {
    if a == 0 then 0
    else if a & 1 == 1 then Xor(b, Mul(a >> 1, Xtime(b)))
    else Mul(a >> 1, Xtime(b))
  }

  lemma XtimeXor(a: bv8, b: bv8)
    ensures Xtime(Xor(a, b)) == Xor(Xtime(a), Xtime(b))
  {
    if a & 0x80 != 0 { if b & 0x80 != 0 {} else {} } else { if b & 0x80 != 0 {} else {} }
  }

  lemma {:induction false} MulZero(a: bv8)
    ensures Mul(0, a) == 0 && Mul(a, 0) == 0
    decreases a
  {
    assert Xtime(0) == 0;
    if a != 0 {
      MulZero(a >> 1);
      assert 0 as bv8 ^ 0 == 0;
    }
  }

  lemma {:induction false} MulXor(a: bv8, b: bv8, c: bv8)
    ensures Mul(a, Xor(b, c)) == Xor(Mul(a, b), Mul(a, c))
    decreases a
  {
    hide Xtime, Xor;
    if a == 0 {
      XorLaws(0, 0);
    } else {
      MulXor(a >> 1, Xtime(b), Xtime(c));
      XtimeXor(b, c);
      XorSwap(b, c, Mul(a >> 1, Xtime(b)), Mul(a >> 1, Xtime(c)));
    }
  }

  lemma {:induction false} MulXtime(a: bv8, b: bv8)
    ensures Mul(a, Xtime(b)) == Xtime(Mul(a, b))
    decreases a
  {
    if a == 0 {
      assert Xtime(0) == 0;
    } else {
      hide Xtime, Xor;
      MulXtime(a >> 1, Xtime(b));
      XtimeXor(b, Mul(a >> 1, Xtime(b)));
    }
  }

  /** Splits off the lowest bit of the left factor without naming it. */
  lemma MulStep(a: bv8, b: bv8)
    ensures Mul(a, b) == Xor(if a & 1 == 1 then b else 0, Xtime(Mul(a >> 1, b)))
  {
    MulXtime(a >> 1, b);
    hide Xtime, Xor;
    if a == 0 {
      MulZero(b);
      XorLaws(0, 0);
      assert Xtime(0) == 0 by { XtimeZero(); }
      assert a >> 1 == 0;
    } else if a & 1 == 1 {
    } else {
      XorLaws(Mul(a >> 1, Xtime(b)), 0);
    }
  }

  lemma XtimeZero()
    ensures Xtime(0) == 0
  {}

  /** Below the modulus, doubling is a plain shift. */
  lemma LowBit(a: bv8)
    ensures a == Xor(if a & 1 == 1 then 1 else 0, Xtime(a >> 1))
  {
    assert (a >> 1) & 0x80 == 0;
    if a & 1 == 1 {
      assert a == 1 ^ ((a >> 1) << 1);
    } else {
      assert a == ((a >> 1) << 1);
    }
  }

  lemma {:induction false} MulOne(a: bv8)
    ensures Mul(a, 1) == a && Mul(1, a) == a
    decreases a
  {
    MulStep(1, a);
    MulZero(a);
    assert Mul(1, a) == a by {
      XtimeZero();
      XorLaws(a, 0);
      assert (1 as bv8) >> 1 == 0 && (1 as bv8) & 1 == 1;
    }
    if a == 0 {
      MulZero(1);
    } else {
      MulStep(a, 1);
      MulOne(a >> 1);
      LowBit(a);
    }
  }

  lemma {:induction false} MulComm(a: bv8, b: bv8)
    ensures Mul(a, b) == Mul(b, a)
    decreases b
  {
    if b == 0 {
      MulZero(a);
    } else {
      var low: bv8 := if b & 1 == 1 then 1 else 0;
      LowBit(b);
      MulXor(a, low, Xtime(b >> 1));
      MulXtime(a, b >> 1);
      MulComm(a, b >> 1);
      MulStep(b, a);
      MulOne(a);
      MulZero(a);
    }
  }

  lemma MulXorLeft(a: bv8, b: bv8, c: bv8)
    ensures Mul(Xor(a, b), c) == Xor(Mul(a, c), Mul(b, c))
  {
    hide Mul, Xor;
    MulComm(Xor(a, b), c);
    MulComm(a, c);
    MulComm(b, c);
    MulXor(c, a, b);
  }

  lemma {:induction false} MulAssoc(a: bv8, b: bv8, c: bv8)
    ensures Mul(Mul(a, b), c) == Mul(a, Mul(b, c))
    decreases a
  {
    if a == 0 {
      MulZero(b);
      MulZero(c);
      MulZero(Mul(b, c));
    } else {
      var rest := Mul(a >> 1, b);
      MulAssoc(a >> 1, b, c);
      MulStep(a, b);
      MulStep(a, Mul(b, c));
      assert Mul(Xtime(rest), c) == Xtime(Mul(rest, c)) by {
        MulComm(Xtime(rest), c);
        MulXtime(c, rest);
        MulComm(rest, c);
      }
      hide Mul, Xor, Xtime;
      MulXorLeft(if a & 1 == 1 then b else 0, Xtime(rest), c);
      MulZero(c);
    }
  }
}
