/** The 64-bit Mersenne Twister: the in-place block generator against its recurrence. */
module Mersenne {
  const NN := 312
  const MM := 156
  const DEFAULT_SEED: bv64 := 4357

  // ---------- The recurrence ----------

  /** Sum and product modulo 2^64. */
  function Sum(a: bv64, b: bv64): bv64 { a + b }
  function Product(a: bv64, b: bv64): bv64 { a * b }

  function SeedNext(before: bv64, i: nat): bv64
    requires i < NN
  {
    Sum(Product(6364136223846793005, before ^ (before >> 62)), i as bv64)
  }

  /** The upper 33 bits of one word and the lower 31 of the next. */
  function Join(upper: bv64, lower: bv64): bv64 {
    (upper & 0xFFFFFFFF80000000) | (lower & 0x7FFFFFFF)
  }

  function Mag(x: bv64): bv64 {
    if x & 1 == 0 then 0 else 0xB5026F5AA96619E9
  }

  function Twist(upper: bv64, lower: bv64, far: bv64): bv64 {
    Xor(Xor(far, Half(Join(upper, lower))), Mag(Join(upper, lower)))
  }

  function Xor(a: bv64, b: bv64): bv64 { a ^ b }

  function Half(x: bv64): bv64 { x >> 1 }

  /** The n-th term of the MT19937-64 recurrence. */
  function Term(seed: bv64, n: nat): bv64 {
    if n == 0 then seed
    else if n < NN then SeedNext(Term(seed, n - 1), n)
    else Twist(Term(seed, n - NN), Term(seed, n - NN + 1), Term(seed, n - NN + MM))
  }

  // ---------- Tempering ----------

  lemma XorZero(a: bv64)
    ensures Xor(a, 0) == a
  {}

  lemma XorUndo(a: bv64, b: bv64)
    ensures Xor(Xor(a, b), b) == a
  {}

  lemma XorMeet(a: bv64, b: bv64, c: bv64)
    ensures Xor(Xor(a, b), Xor(b, c)) == Xor(a, c)
  {}

  /** The masked shifts of the four steps. */
  function Shift1(x: bv64): bv64 { (x >> 29) & 0x5555555555555555 }
  function Shift2(x: bv64): bv64 { (x << 17) & 0x71D67FFFEDA60000 }
  function Shift3(x: bv64): bv64 { (x << 37) & 0xFFF7EEE000000000 }
  function Shift4(x: bv64): bv64 { x >> 43 }

  /** Each masked shift is linear, and shifts everything out after a few applications. */
  lemma Linear1(a: bv64, b: bv64)
    ensures Shift1(Xor(a, b)) == Xor(Shift1(a), Shift1(b)) && Shift1(Shift1(Shift1(a))) == 0 && Shift1(0) == 0
  {
    assert ((a ^ b) >> 29) & 0x5555555555555555 == ((a >> 29) & 0x5555555555555555) ^ ((b >> 29) & 0x5555555555555555);
  }

  lemma Linear2(a: bv64, b: bv64)
    ensures Shift2(Xor(a, b)) == Xor(Shift2(a), Shift2(b)) && Shift2(Shift2(Shift2(Shift2(a)))) == 0
  {
    assert ((a ^ b) << 17) & 0x71D67FFFEDA60000 == ((a << 17) & 0x71D67FFFEDA60000) ^ ((b << 17) & 0x71D67FFFEDA60000);
  }

  lemma Linear3(a: bv64, b: bv64)
    ensures Shift3(Xor(a, b)) == Xor(Shift3(a), Shift3(b)) && Shift3(Shift3(a)) == 0
  {
    assert ((a ^ b) << 37) & 0xFFF7EEE000000000 == ((a << 37) & 0xFFF7EEE000000000) ^ ((b << 37) & 0xFFF7EEE000000000);
  }

  lemma Linear4(a: bv64, b: bv64)
    ensures Shift4(Xor(a, b)) == Xor(Shift4(a), Shift4(b)) && Shift4(Shift4(a)) == 0
  {
    assert (a ^ b) >> 43 == (a >> 43) ^ (b >> 43);
  }

  function Temper1(x: bv64): bv64 { Xor(x, Shift1(x)) }
  function Temper2(x: bv64): bv64 { Xor(x, Shift2(x)) }
  function Temper3(x: bv64): bv64 { Xor(x, Shift3(x)) }
  function Temper4(x: bv64): bv64 { Xor(x, Shift4(x)) }

  function Temper(x: bv64): bv64 {
    Temper4(Temper3(Temper2(Temper1(x))))
  }

  /** Each round fixes another 29 or 17 bits of the word before the step. */
  function Untemper1(y: bv64): bv64 { Xor(y, Shift1(Xor(y, Shift1(y)))) }
  function Untemper2(y: bv64): bv64 { Xor(y, Shift2(Xor(y, Shift2(Xor(y, Shift2(y)))))) }

  function Untemper(y: bv64): bv64 {
    Untemper1(Untemper2(Temper3(Temper4(y))))
  }

  lemma Undo1(x: bv64)
    ensures Untemper1(Temper1(x)) == x && Temper1(Untemper1(x)) == x
  {
    hide Xor, Shift1;
    var b := Shift1(x);
    var c := Shift1(b);
    Linear1(x, b);
    XorMeet(x, b, c);
    Linear1(x, c);
    Linear1(c, b);
    XorZero(b);
    XorUndo(x, b);
    Linear1(x, Xor(b, c));
    Linear1(b, c);
    XorZero(c);
    XorUndo(x, Xor(b, c));
  }

  lemma Undo2(x: bv64)
    ensures Untemper2(Temper2(x)) == x && Temper2(Untemper2(x)) == x
  {
    hide Xor, Shift2;
    var b := Shift2(x);
    var c := Shift2(b);
    var d := Shift2(c);
    Linear2(x, b);
    XorMeet(x, b, c);
    Linear2(x, c);
    XorMeet(x, b, d);
    Linear2(x, d);
    XorZero(b);
    XorUndo(x, b);
    Linear2(b, c);
    Linear2(x, Xor(b, c));
    Linear2(c, d);
    XorZero(d);
    Linear2(b, Xor(c, d));
    Linear2(x, Xor(b, Xor(c, d)));
    XorUndo(x, Xor(b, Xor(c, d)));
  }

  lemma Undo3(x: bv64)
    ensures Temper3(Temper3(x)) == x
  {
    hide Xor, Shift3;
    Linear3(x, Shift3(x));
    XorZero(Shift3(x));
    XorUndo(x, Shift3(x));
  }

  lemma Undo4(x: bv64)
    ensures Temper4(Temper4(x)) == x
  {
    hide Xor, Shift4;
    Linear4(x, Shift4(x));
    XorZero(Shift4(x));
    XorUndo(x, Shift4(x));
  }

  /** Tempering is a bijection on 64-bit words. */
  lemma TemperBijective(x: bv64)
    ensures Untemper(Temper(x)) == x
    ensures Temper(Untemper(x)) == x
  {
    hide Temper1, Temper2, Temper3, Temper4, Untemper1, Untemper2;
    Undo1(x);
    Undo2(Temper1(x));
    Undo3(Temper2(Temper1(x)));
    Undo4(Temper3(Temper2(Temper1(x))));
    Undo4(x);
    Undo3(Temper4(x));
    Undo2(Temper3(Temper4(x)));
    Undo1(Untemper2(Temper3(Temper4(x))));
  }

  // ---------- What the three functions compute ----------

  /** Word r of the initial state, from the word before it. */
  ghost predicate Seeded(before: bv64, word: bv64, r: nat)
    requires r < 312
  {
    word == Sum(Product(6364136223846793005, before ^ (before >> 62)), r as bv64)
  }

  lemma SeedStep(before: bv64, r: nat)
    requires r < 312
    ensures Seeded(before, SeedNext(before, r), r)
  {
    hide Sum, Product;
  }

  /** Seed 0 does not get stuck at 0. */
  lemma SeedZero()
    ensures Term(0, 1) == 1 && Term(0, 2) == 6364136223846793007
  {
    assert Term(0, 1) == SeedNext(Term(0, 0), 1);
    assert Term(0, 2) == SeedNext(Term(0, 1), 2);
  }

  /** Twisting is linear over XOR in all three words together, */
  lemma TwistLinear(upper: bv64, lower: bv64, far: bv64, upper': bv64, lower': bv64, far': bv64)
    ensures Twist(Xor(upper, upper'), Xor(lower, lower'), Xor(far, far')) ==
              Xor(Twist(upper, lower, far), Twist(upper', lower', far'))
  {
    var x, y := Join(upper, lower), Join(upper', lower');
    JoinLinear(upper, lower, upper', lower');
    MagLinear(x, y);
    HalfLinear(x, y);
    hide Xor, Join, Mag, Half;
    XorSwap(far, Half(x), far', Half(y));
    XorSwap(Xor(far, Half(x)), Mag(x), Xor(far', Half(y)), Mag(y));
  }

  lemma HalfLinear(x: bv64, y: bv64)
    ensures Half(Xor(x, y)) == Xor(Half(x), Half(y))
  {
    assert (x ^ y) >> 1 == (x >> 1) ^ (y >> 1);
  }

  lemma JoinLinear(upper: bv64, lower: bv64, upper': bv64, lower': bv64)
    ensures Join(Xor(upper, upper'), Xor(lower, lower')) == Xor(Join(upper, lower), Join(upper', lower'))
  {}

  lemma MagLinear(x: bv64, y: bv64)
    ensures Mag(Xor(x, y)) == Xor(Mag(x), Mag(y))
  {
    if x & 1 == 0 { if y & 1 == 0 {} else {} } else { if y & 1 == 0 {} else {} }
  }

  /** and these are its images of words with a single bit. */
  lemma TwistBit(x: bv64)
    requires x != 0 && x & (x - 1) == 0
    ensures Twist(x, 0, 0) == if x >= 0x80000000 then x >> 1 else 0
    ensures Twist(0, x, 0) == if x == 1 then 0xB5026F5AA96619E9 else if x < 0x80000000 then x >> 1 else 0
    ensures Twist(0, 0, x) == x
  {}

  /** Tempering is linear over XOR, */
  lemma TemperLinear(a: bv64, b: bv64)
    ensures Temper(Xor(a, b)) == Xor(Temper(a), Temper(b))
  {
    hide Xor, Shift1, Shift2, Shift3, Shift4;
    var a1, b1 := Temper1(a), Temper1(b);
    var a2, b2 := Temper2(a1), Temper2(b1);
    var a3, b3 := Temper3(a2), Temper3(b2);
    Linear1(a, b);
    XorSwap(a, b, Shift1(a), Shift1(b));
    Linear2(a1, b1);
    XorSwap(a1, b1, Shift2(a1), Shift2(b1));
    Linear3(a2, b2);
    XorSwap(a2, b2, Shift3(a2), Shift3(b2));
    Linear4(a3, b3);
    XorSwap(a3, b3, Shift4(a3), Shift4(b3));
  }

  lemma XorSwap(a: bv64, b: bv64, c: bv64, d: bv64)
    ensures Xor(Xor(a, b), Xor(c, d)) == Xor(Xor(a, c), Xor(b, d))
  {
    XorComm(b, c);
    hide Xor;
    XorAssoc(a, b, Xor(c, d));
    XorAssoc(b, c, d);
    XorAssoc(c, b, d);
    XorAssoc(a, c, Xor(b, d));
  }

  lemma XorComm(a: bv64, b: bv64)
    ensures Xor(a, b) == Xor(b, a)
  {}

  lemma XorAssoc(a: bv64, b: bv64, c: bv64)
    ensures Xor(Xor(a, b), c) == Xor(a, Xor(b, c))
  {}

  /** and these are its images of the words with a single bit. */
  lemma TemperBits0()
    ensures Temper(0x1) == 0x40002000020801 && Temper(0x2) == 0x80004000041002
    ensures Temper(0x4) == 0x8000000004 && Temper(0x8) == 0x8
    ensures Temper(0x10) == 0x400020000208010 && Temper(0x20) == 0x40000000020
    ensures Temper(0x40) == 0x1000080000820041 && Temper(0x80) == 0x2000000001040080
  {}

  lemma TemperBits1()
    ensures Temper(0x100) == 0x200000000104 && Temper(0x200) == 0x8000400004100208
    ensures Temper(0x400) == 0x800008000410 && Temper(0x800) == 0x1000000000820
    ensures Temper(0x1000) == 0x2000020001040 && Temper(0x2000) == 0x4000040002080
    ensures Temper(0x4000) == 0x80004000 && Temper(0x8000) == 0x10000100008200
  {}

  lemma TemperBits2()
    ensures Temper(0x10000) == 0x20000200010400 && Temper(0x20000) == 0x40000400020800
    ensures Temper(0x40000) == 0x80000800041000 && Temper(0x80000) == 0x100001000082000
    ensures Temper(0x100000) == 0x200002000104000 && Temper(0x200000) == 0x400004000208000
    ensures Temper(0x400000) == 0x800008000410000 && Temper(0x800000) == 0x1000010000820000
  {}

  lemma TemperBits3()
    ensures Temper(0x1000000) == 0x2000020001040000 && Temper(0x2000000) == 0x4000040002080000
    ensures Temper(0x4000000) == 0x8000080004100001 && Temper(0x8000000) == 0x100008000002
    ensures Temper(0x10000000) == 0x200010000004 && Temper(0x20000000) == 0x40402020020809
    ensures Temper(0x40000000) == 0x40000000 && Temper(0x80000000) == 0x8080000004
  {}

  lemma TemperBits4()
    ensures Temper(0x100000000) == 0x2000100000040 && Temper(0x200000000) == 0x404020200208090
    ensures Temper(0x400000000) == 0x400000000 && Temper(0x800000000) == 0x1010080800820241
    ensures Temper(0x1000000000) == 0x1000000000 && Temper(0x2000000000) == 0x40202000000904
    ensures Temper(0x4000000000) == 0x80004000001000 && Temper(0x8000000000) == 0x100808008002410
  {}

  lemma TemperBits5()
    ensures Temper(0x10000000000) == 0x10000000000 && Temper(0x20000000000) == 0x2020020001040
    ensures Temper(0x40000000000) == 0x40000000000 && Temper(0x80000000000) == 0x1000080080024001
    ensures Temper(0x100000000000) == 0x2000100000040002 && Temper(0x200000000000) == 0x4020200200090404
    ensures Temper(0x400000000000) == 0x400000000008 && Temper(0x800000000000) == 0x80800800041010
  {}

  lemma TemperBits6()
    ensures Temper(0x1000000000000) == 0x1000000000020 && Temper(0x2000000000000) == 0x202002000104040
    ensures Temper(0x4000000000000) == 0x4000000000080 && Temper(0x8000000000000) == 0x808008000410100
    ensures Temper(0x10000000000000) == 0x10000000000200 && Temper(0x20000000000000) == 0x2020020001040400
    ensures Temper(0x40000000000000) == 0x40000000000800 && Temper(0x80000000000000) == 0x8080080004101001
  {}

  lemma TemperBits7()
    ensures Temper(0x100000000000000) == 0x100000000002000 && Temper(0x200000000000000) == 0x200200010004004
    ensures Temper(0x400000000000000) == 0x400000000008000 && Temper(0x800000000000000) == 0x800000040010000
    ensures Temper(0x1000000000000000) == 0x1000000000020000 && Temper(0x2000000000000000) == 0x2002000100040040
    ensures Temper(0x4000000000000000) == 0x4000000000080000 && Temper(0x8000000000000000) == 0x8000000400100000
  {}

  /** The n-th output for a seed. */
  function Output(seed: bv64, n: nat): bv64 {
    Temper(Term(seed, NN + n))
  }

  lemma TermStart(seed: bv64, n: nat)
    requires n < 312
    ensures Term(seed, n) == if n == 0 then seed else SeedNext(Term(seed, n - 1), n)
  {
    hide SeedNext, Twist;
  }

  // ---------- The generator ----------

  /** The state holds a block of terms. */
  ghost predicate Block(mt: seq<bv64>, seed: bv64, base: nat, fresh': nat) {
    && |mt| == NN
    && forall r | 0 <= r < NN :: mt[r] == Term(seed, if r < fresh' then base + NN + r else base + r)
  }

  class MTRand64 {
    const mt: array<bv64>
    var mti: nat
    ghost var seed: bv64
    /** How many words have been drawn since the seed was set. */
    ghost var drawn: nat
    ghost var base: nat

    /** Not seeded yet, or a block of the recurrence with its read position. */
    ghost predicate Valid()
      reads this, mt
    {
      && mt.Length == NN
      && (mti == NN + 1 || (mti <= NN && base + mti == NN + drawn && Block(mt[..], seed, base, 0)))
      && (mti == NN + 1 ==> seed == DEFAULT_SEED && drawn == 0)
    }

    constructor ()
      ensures Valid() && mti == 313 && fresh(mt) && seed == 4357 && drawn == 0
    {
      mt := new bv64[NN];
      mti := NN + 1;
      seed, drawn, base := DEFAULT_SEED, 0, 0;
    }

    method InitGenrand64(seed: bv64)
      requires mt.Length == NN
      modifies this, mt
      ensures Valid() && mti == 312 && this.seed == seed && drawn == 0
      ensures forall r | 0 <= r < 312 :: mt[r] == Term(seed, r)
      ensures mt[0] == seed && forall r | 1 <= r < 312 :: Seeded(mt[r - 1], mt[r], r)
    {
      hide SeedNext, Term, Seeded;
      TermStart(seed, 0);
      mt[0] := seed;
      mti := 1;
      while mti < NN
        invariant 1 <= mti <= NN && forall r | 0 <= r < mti :: mt[r] == Term(seed, r)
      {
        TermStart(seed, mti);
        mt[mti] := SeedNext(mt[mti - 1], mti);
        mti := mti + 1;
      }
      this.seed, drawn, base := seed, 0, 0;
      forall r | 1 <= r < 312 ensures Seeded(mt[r - 1], mt[r], r) {
        TermStart(seed, r);
        SeedStep(Term(seed, r - 1), r);
      }
    }

    /** The n-th call returns the tempered n-th term, whatever n. */
    method Genrand64Uint64() returns (x: bv64)
      requires Valid()
      modifies this, mt
      ensures Valid() && seed == old(seed) && drawn == old(drawn) + 1
      ensures x == Output(seed, old(drawn)) == Temper(Term(seed, 312 + old(drawn)))
    {
      hide SeedNext, Twist, Term, Temper;
      if mti >= NN {
        if mti == NN + 1 {
          InitGenrand64(DEFAULT_SEED);
        }
        NextBlock(mt, seed, base);
        base := base + NN;
        mti := 0;
      }
      x := mt[mti];
      mti := mti + 1;
      drawn := drawn + 1;
      x := TemperWord(x);
    }
  }

  method TemperWord(word: bv64) returns (x: bv64)
    ensures x == Temper(word)
  {
    hide Xor, Shift1, Shift2, Shift3, Shift4;
    x := word;
    x := Xor(x, Shift1(x));
    x := Xor(x, Shift2(x));
    x := Xor(x, Shift3(x));
    x := Xor(x, Shift4(x));
  }

  lemma NextTerm(seed: bv64, n: nat)
    requires n >= 312
    ensures Term(seed, n) == Twist(Term(seed, n - 312), Term(seed, n - 311), Term(seed, n - 156))
  {
    hide Twist;
  }

  /** Rewrites the block in place, in three segments. */
  method NextBlock(mt: array<bv64>, ghost seed: bv64, ghost base: nat)
    requires mt.Length == NN && Block(mt[..], seed, base, 0)
    modifies mt
    ensures Block(mt[..], seed, base + NN, 0)
  {
    hide Twist, Term;
    var i := 0;
    while i < NN - MM
      invariant i <= NN - MM && Block(mt[..], seed, base, i)
    {
      NextTerm(seed, base + NN + i);
      mt[i] := Twist(mt[i], mt[i + 1], mt[i + MM]);
      i := i + 1;
    }
    while i < NN - 1
      invariant NN - MM <= i <= NN - 1 && Block(mt[..], seed, base, i)
    {
      NextTerm(seed, base + NN + i);
      mt[i] := Twist(mt[i], mt[i + 1], mt[i + MM - NN]);
      i := i + 1;
    }
    NextTerm(seed, base + NN + NN - 1);
    mt[NN - 1] := Twist(mt[NN - 1], mt[0], mt[MM - 1]);
  }
}
