/**
 * Arithmetic in GF(2^m) as the coder does it: symbols are words of m bits, addition is
 * exclusive or, and multiplication shifts and reduces by the modulus polynomial.
 */
module GaloisField {
  import opened Common
  import opened Bits

  datatype GF = GF(m: nat, poly: nat)
  {
    function N(): nat { Pow2(m) }

    /** The modulus is one bit wider than a symbol. */
    predicate Valid() { m >= 2 && N() <= poly < 2 * N() }

    /** One doubling with reduction, the step of the exponent table and of GF_slow_multiply. */
    function XTime(x: nat): nat {
      if 2 * x >= N() then Xor(2 * x, poly) else 2 * x
    }

    /** GF_slow_multiply: shift and add over the bits of y. */
    function Mul(x: nat, y: nat): nat
      decreases y
    {
      if y == 0 then 0 else Xor(if y % 2 == 1 then x else 0, Mul(XTime(x), y / 2))
    }

    /** Power i of the generator 2. */
    function Exp(i: nat): nat {
      if i == 0 then 1 else XTime(Exp(i - 1))
    }

    function Power(x: nat, e: nat): nat {
      if e == 0 then 1 else Mul(Power(x, e - 1), x)
    }

    /** GF_slow_invert. */
    function Inv(x: nat): nat { Power(x, if N() >= 2 then N() - 2 else 0) }

    /** 2 is a primitive element: its powers first return to 1 after N - 1 doublings. */
    ghost predicate Primitive() {
      Valid() && Exp(N() - 1) == 1 && forall i :: 0 < i < N() - 1 ==> Exp(i) != 1
    }
  }

  lemma XTimeBound(g: GF, x: nat)
    requires g.Valid() && x < g.N()
    ensures g.XTime(x) < g.N()
  {
    XorTopBit(g.m, 2 * x, g.poly);
  }

  lemma XorDouble(a: nat, b: nat)
    ensures Xor(2 * a, 2 * b) == 2 * Xor(a, b)
  {
    XorJoin(a, b, 0, 0);
  }

  /** A common term cancels. */
  lemma XorCommon(x: nat, y: nat, p: nat)
    ensures Xor(Xor(x, p), Xor(y, p)) == Xor(x, y)
  {
    XorSwap(x, p, y, p);
    XorSelf(p);
    XorZero(Xor(x, y));
  }

  lemma XorInner(x: nat, y: nat, p: nat)
    ensures Xor(Xor(x, p), y) == Xor(Xor(x, y), p)
  {
    XorAssoc(x, p, y);
    XorComm(p, y);
    XorAssoc(x, y, p);
  }

  /** The sum of two symbols is doubled past the width if exactly one of them is. */
  lemma XorWide(g: GF, a: nat, b: nat)
    requires g.Valid() && a < g.N() && b < g.N()
    ensures 2 * Xor(a, b) >= g.N() <==> (2 * a >= g.N()) != (2 * b >= g.N())
  {
    XorTopBit(g.m - 1, a, b);
  }

  lemma XTimeLinear(g: GF, a: nat, b: nat)
    requires g.Valid() && a < g.N() && b < g.N()
    ensures g.XTime(Xor(a, b)) == Xor(g.XTime(a), g.XTime(b))
  {
    XorDouble(a, b);
    XorWide(g, a, b);
    if 2 * a >= g.N() && 2 * b >= g.N() {
      XorCommon(2 * a, 2 * b, g.poly);
    } else if 2 * a >= g.N() {
      XorInner(2 * a, 2 * b, g.poly);
    } else if 2 * b >= g.N() {
      XorAssoc(2 * a, 2 * b, g.poly);
    }
  }

  lemma {:induction false} MulBound(g: GF, x: nat, y: nat)
    requires g.Valid() && x < g.N()
    ensures g.Mul(x, y) < g.N()
    decreases y
  {
    if y != 0 {
      XTimeBound(g, x);
      MulBound(g, g.XTime(x), y / 2);
      XorBound(g.m, if y % 2 == 1 then x else 0, g.Mul(g.XTime(x), y / 2));
    }
  }

  lemma {:induction false} MulZero(g: GF, y: nat)
    requires g.Valid()
    ensures g.Mul(0, y) == 0 && g.Mul(y, 0) == 0
  {
    if y != 0 {
      MulZero(g, y / 2);
      assert g.XTime(0) == 0;
      XorZero(0);
    }
  }

  lemma {:induction false} MulAddLeft(g: GF, a: nat, b: nat, y: nat)
    requires g.Valid() && a < g.N() && b < g.N()
    ensures g.Mul(Xor(a, b), y) == Xor(g.Mul(a, y), g.Mul(b, y))
    decreases y
  {
    XorZero(0);
    if y != 0 {
      XTimeLinear(g, a, b);
      XTimeBound(g, a);
      XTimeBound(g, b);
      MulAddLeft(g, g.XTime(a), g.XTime(b), y / 2);
      var a', b' := if y % 2 == 1 then a else 0, if y % 2 == 1 then b else 0;
      XorSwap(a', b', g.Mul(g.XTime(a), y / 2), g.Mul(g.XTime(b), y / 2));
    }
  }

  lemma {:induction false} MulXTime(g: GF, x: nat, y: nat)
    requires g.Valid() && x < g.N()
    ensures g.Mul(g.XTime(x), y) == g.XTime(g.Mul(x, y))
    decreases y
  {
    if y != 0 {
      XTimeBound(g, x);
      MulXTime(g, g.XTime(x), y / 2);
      MulBound(g, g.XTime(x), y / 2);
      var x' := if y % 2 == 1 then x else 0;
      XTimeLinear(g, x', g.Mul(g.XTime(x), y / 2));
      assert g.XTime(0) == 0;
    }
  }

  /** Multiplication read off the low bit of its second argument, with the doubling outside. */
  lemma MulStep(g: GF, x: nat, y: nat)
    requires g.Valid() && x < g.N() && y != 0
    ensures g.Mul(x, y) == Xor(if y % 2 == 1 then x else 0, g.XTime(g.Mul(x, y / 2)))
  {
    MulXTime(g, x, y / 2);
  }

  lemma {:induction false} MulOne(g: GF, y: nat)
    requires g.Valid() && y < g.N()
    ensures g.Mul(1, y) == y
  {
    if y != 0 {
      MulOne(g, y / 2);
      MulStep(g, 1, y);
      assert g.XTime(y / 2) == 2 * (y / 2);
      XorLowBit(y);
    }
  }

  lemma {:induction false} MulComm(g: GF, x: nat, y: nat)
    requires g.Valid() && x < g.N() && y < g.N()
    ensures g.Mul(x, y) == g.Mul(y, x)
    decreases y
  {
    if y == 0 {
      MulZero(g, x);
    } else {
      var h, b := y / 2, y % 2;
      MulComm(g, x, h);
      MulStep(g, x, y);
      MulXTime(g, h, x);
      assert g.XTime(h) == 2 * h;
      MulAddLeft(g, b, 2 * h, x);
      assert g.Mul(b, x) == if b == 1 then x else 0 by {
        MulOne(g, x);
        MulZero(g, x);
      }
      XorLowBit(y);
    }
  }

  /** The two factors of x may be applied in either order; with MulComm this is associativity. */
  lemma {:induction false} MulExchange(g: GF, x: nat, y: nat, z: nat)
    requires g.Valid() && x < g.N() && y < g.N() && z < g.N()
    ensures g.Mul(g.Mul(x, z), y) == g.Mul(g.Mul(x, y), z)
    decreases z
  {
    if z == 0 {
      MulZero(g, y);
    } else {
      var h := z / 2;
      MulExchange(g, x, y, h);
      MulStep(g, x, z);
      MulBound(g, x, h);
      MulBound(g, x, y);
      XTimeBound(g, g.Mul(x, h));
      MulAddLeft(g, if z % 2 == 1 then x else 0, g.XTime(g.Mul(x, h)), y);
      MulXTime(g, g.Mul(x, h), y);
      MulStep(g, g.Mul(x, y), z);
      MulZero(g, y);
    }
  }

  lemma MulAssoc(g: GF, x: nat, y: nat, z: nat)
    requires g.Valid() && x < g.N() && y < g.N() && z < g.N()
    ensures g.Mul(g.Mul(x, y), z) == g.Mul(x, g.Mul(y, z))
  {
    MulBound(g, y, z);
    MulComm(g, x, g.Mul(y, z));
    MulExchange(g, y, x, z);
    MulComm(g, x, y);
  }

  // ---------- Powers of the generator ----------

  lemma {:induction false} ExpBound(g: GF, i: nat)
    requires g.Valid()
    ensures g.Exp(i) < g.N()
  {
    assert g.N() == 2 * Pow2(g.m - 1);
    if i != 0 {
      ExpBound(g, i - 1);
      XTimeBound(g, g.Exp(i - 1));
    }
  }

  lemma ExpNext(g: GF, i: nat)
    ensures g.Exp(i + 1) == g.XTime(g.Exp(i))
  {
  }

  lemma ProductNext(g: GF, x: nat, y: nat, z: nat)
    requires g.Valid() && x < g.N() && g.Mul(x, y) == z
    ensures g.Mul(g.XTime(x), y) == g.XTime(z)
  {
    MulXTime(g, x, y);
  }

  lemma ExpAddNext(g: GF, i: nat, j: nat)
    requires g.Valid() && g.Mul(g.Exp(i), g.Exp(j)) == g.Exp(i + j)
    ensures g.Mul(g.Exp(i + 1), g.Exp(j)) == g.Exp(i + 1 + j)
  {
    ExpBound(g, i);
    ExpNext(g, i);
    ExpNext(g, i + j);
    ProductNext(g, g.Exp(i), g.Exp(j), g.Exp(i + j));
  }

  lemma ExpAddZero(g: GF, j: nat)
    requires g.Valid()
    ensures g.Mul(g.Exp(0), g.Exp(j)) == g.Exp(j)
  {
    ExpBound(g, j);
    MulOne(g, g.Exp(j));
  }

  /** Adding exponents multiplies: the identity the log and exp tables rest on. */
  lemma {:induction false} ExpAdd(g: GF, i: nat, j: nat)
    requires g.Valid()
    ensures g.Mul(g.Exp(i), g.Exp(j)) == g.Exp(i + j)
  {
    if i == 0 {
      ExpAddZero(g, j);
    } else {
      ExpAdd(g, i - 1, j);
      ExpAddNext(g, i - 1, j);
    }
  }

  lemma ExpPeriod(g: GF, i: nat)
    requires g.Primitive()
    ensures g.Exp(i + (g.N() - 1)) == g.Exp(i)
  {
    ExpAdd(g, g.N() - 1, i);
    ExpBound(g, i);
    MulOne(g, g.Exp(i));
  }

  lemma ExpNonzero(g: GF, i: nat)
    requires g.Primitive() && i <= g.N() - 1
    ensures g.Exp(i) != 0
  {
    if g.Exp(i) == 0 {
      ExpAdd(g, i, g.N() - 1 - i);
      MulZero(g, g.Exp(g.N() - 1 - i));
    }
  }

  lemma ExpInjective(g: GF, i: nat, j: nat)
    requires g.Primitive() && 1 <= i < j <= g.N() - 1
    ensures g.Exp(i) != g.Exp(j)
  {
    var d := g.N() - 1 - j;
    assert g.Mul(g.Exp(i), g.Exp(d)) != 1 by { ExpAdd(g, i, d); }
    assert g.Mul(g.Exp(j), g.Exp(d)) == 1 by { ExpAdd(g, j, d); }
  }

  ghost function Powers(g: GF, n: nat): set<nat> {
    set i | 1 <= i <= n :: g.Exp(i)
  }

  ghost function UpTo(n: nat): (s: set<nat>)
    ensures |s| == n && forall x :: x in s <==> 1 <= x <= n
  {
    if n == 0 then {} else UpTo(n - 1) + {n}
  }

  lemma {:induction false} PowersCount(g: GF, n: nat)
    requires g.Primitive() && n <= g.N() - 1
    ensures |Powers(g, n)| == n
  {
    if n == 0 {
      assert Powers(g, 0) == {};
    } else {
      PowersCount(g, n - 1);
      forall i | 1 <= i < n ensures g.Exp(i) != g.Exp(n) { ExpInjective(g, i, n); }
      assert Powers(g, n) == Powers(g, n - 1) + {g.Exp(n)};
    }
  }

  lemma SubsetSameSize(s: set<nat>, t: set<nat>)
    requires s <= t && |s| == |t|
    ensures s == t
  {
    if x :| x in t && x !in s {
      assert s <= t - {x};
      SubsetSize(s, t - {x});
    }
  }

  /** Every non-zero symbol is a power of 2, with an exponent from 1 to N - 1. */
  lemma ExpSurjective(g: GF, x: nat)
    requires g.Primitive() && 0 < x < g.N()
    ensures exists i :: 1 <= i <= g.N() - 1 && g.Exp(i) == x
  {
    var n := g.N() - 1;
    PowersCount(g, n);
    forall i | 1 <= i <= n ensures g.Exp(i) in UpTo(n) {
      ExpBound(g, i);
      ExpNonzero(g, i);
    }
    SubsetSameSize(Powers(g, n), UpTo(n));
    assert x in Powers(g, n);
  }

  /** The discrete logarithm, in the range the tables use: 1 has logarithm N - 1. */
  ghost function Log(g: GF, x: nat): (i: nat)
    requires g.Primitive() && 0 < x < g.N()
    ensures 1 <= i <= g.N() - 1 && g.Exp(i) == x
  {
    ExpSurjective(g, x);
    var i :| 1 <= i <= g.N() - 1 && g.Exp(i) == x;
    i
  }

  // ---------- Inverses ----------

  lemma {:induction false} PowerExp(g: GF, i: nat, e: nat)
    requires g.Valid()
    ensures g.Power(g.Exp(i), e) == g.Exp(i * e)
  {
    if e != 0 {
      PowerExp(g, i, e - 1);
      ExpAdd(g, i * (e - 1), i);
      assert i * (e - 1) + i == i * e;
    } else {
      assert i * e == 0;
    }
  }

  lemma {:induction false} ExpCycles(g: GF, t: nat)
    requires g.Primitive()
    ensures g.Exp(t * (g.N() - 1)) == 1
  {
    if t == 0 {
      assert t * (g.N() - 1) == 0;
    } else {
      ExpCycles(g, t - 1);
      ExpPeriod(g, (t - 1) * (g.N() - 1));
      assert (t - 1) * (g.N() - 1) + (g.N() - 1) == t * (g.N() - 1);
    }
  }

  lemma PowerCycle(g: GF, x: nat)
    requires g.Primitive() && 0 < x < g.N()
    ensures g.Power(x, g.N() - 1) == 1
  {
    PowerExp(g, Log(g, x), g.N() - 1);
    ExpCycles(g, Log(g, x));
  }

  lemma {:induction false} PowerBound(g: GF, x: nat, e: nat)
    requires g.Valid() && x < g.N()
    ensures g.Power(x, e) < g.N()
  {
    if e == 0 {
      ExpBound(g, 0);
    } else {
      PowerBound(g, x, e - 1);
      MulBound(g, g.Power(x, e - 1), x);
    }
  }

  /** The (N - 2)-th power is the multiplicative inverse. */
  lemma InvCorrect(g: GF, x: nat)
    requires g.Primitive() && 0 < x < g.N()
    ensures 0 < g.Inv(x) < g.N() && g.Mul(x, g.Inv(x)) == 1
  {
    var y := g.Inv(x);
    PowerCycle(g, x);
    PowerBound(g, x, g.N() - 2);
    MulComm(g, x, y);
    MulZero(g, x);
  }

  /** The inverse has the complementary logarithm, which is how the inverse table is filled. */
  lemma InvByLog(g: GF, x: nat)
    requires g.Primitive() && 0 < x < g.N()
    ensures g.Inv(x) == g.Exp(g.N() - 1 - Log(g, x))
  {
    var y := g.Exp(g.N() - 1 - Log(g, x));
    ExpAdd(g, Log(g, x), g.N() - 1 - Log(g, x));
    ExpBound(g, g.N() - 1 - Log(g, x));
    InvCorrect(g, x);
    InverseUnique(g, x, y, g.Inv(x));
  }

  lemma InverseUnique(g: GF, x: nat, y: nat, z: nat)
    requires g.Valid() && x < g.N() && y < g.N() && z < g.N()
    requires g.Mul(x, y) == 1 && g.Mul(x, z) == 1
    ensures y == z
  {
    MulAssoc(g, y, x, z);
    MulComm(g, x, y);
    MulOne(g, z);
    MulComm(g, y, 1);
    MulOne(g, y);
  }
}
