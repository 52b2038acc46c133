/** Unsigned machine words as naturals: powers of two and bitwise exclusive or, for every width. */
module Bits {

  function Pow2(n: nat): (r: nat)
    ensures r >= 1
  {
    if n == 0 then 1 else 2 * Pow2(n - 1)
  }

  /** Bitwise exclusive or, one bit at a time from the bottom. */
  function Xor(a: nat, b: nat): nat
    decreases a + b
  {
    if a == 0 && b == 0 then 0 else 2 * Xor(a / 2, b / 2) + (a + b) % 2
  }

  lemma {:induction false} XorZero(a: nat)
    ensures Xor(a, 0) == a && Xor(0, a) == a
  {
    if a != 0 { XorZero(a / 2); }
  }

  lemma {:induction false} XorSelf(a: nat)
    ensures Xor(a, a) == 0
  {
    if a != 0 { XorSelf(a / 2); }
  }

  lemma {:induction false} XorComm(a: nat, b: nat)
    ensures Xor(a, b) == Xor(b, a)
    decreases a + b
  {
    if a != 0 || b != 0 { XorComm(a / 2, b / 2); }
  }

  lemma {:induction false} XorAssoc(a: nat, b: nat, c: nat)
    ensures Xor(Xor(a, b), c) == Xor(a, Xor(b, c))
    decreases a + b + c
  {
    if a != 0 || b != 0 || c != 0 {
      XorAssoc(a / 2, b / 2, c / 2);
      XorHalf(a, b);
      XorHalf(b, c);
      Parity(a, b, c, Xor(a, b), Xor(b, c));
      XorHalf(Xor(a, b), c);
      XorHalf(a, Xor(b, c));
    }
  }

  lemma Parity(a: nat, b: nat, c: nat, ab: nat, bc: nat)
    requires ab % 2 == (a + b) % 2 && bc % 2 == (b + c) % 2
    ensures (ab + c) % 2 == (a + bc) % 2
  {
  }

  /** A word is its low bit joined to the rest. */
  lemma XorLowBit(y: nat)
    ensures Xor(y % 2, 2 * (y / 2)) == y
  {
    XorHalf(y % 2, 2 * (y / 2));
    XorZero(y / 2);
  }

  lemma XorHalf(a: nat, b: nat)
    ensures Xor(a, b) / 2 == Xor(a / 2, b / 2) && Xor(a, b) % 2 == (a + b) % 2
    ensures Xor(a, b) == 2 * Xor(a / 2, b / 2) + (a + b) % 2
  {
  }

  lemma HalfOf(a: nat, p: nat)
    requires p < 2
    ensures (2 * a + p) / 2 == a
  {
  }

  lemma LowOf(a: nat, b: nat, p: nat, q: nat)
    ensures (2 * a + p + (2 * b + q)) % 2 == (p + q) % 2
  {
    assert 2 * a + p + (2 * b + q) == 2 * (a + b) + (p + q);
  }

  /** Exclusive or, one bit longer. */
  lemma XorJoin(a: nat, b: nat, p: nat, q: nat)
    requires p < 2 && q < 2
    ensures Xor(2 * a + p, 2 * b + q) == 2 * Xor(a, b) + (p + q) % 2
  {
    HalfOf(a, p);
    HalfOf(b, q);
    LowOf(a, b, p, q);
    XorHalf(2 * a + p, 2 * b + q);
  }

  /** How exclusive or treats the top bit of a word of n + 1 bits. */
  lemma {:induction false} XorTopBit(n: nat, a: nat, b: nat)
    requires a < 2 * Pow2(n) && b < 2 * Pow2(n)
    ensures Xor(a, b) < 2 * Pow2(n)
    ensures (Xor(a, b) >= Pow2(n)) <==> ((a >= Pow2(n)) != (b >= Pow2(n)))
  {
    XorHalf(a, b);
    if n == 0 {
      assert Xor(0, 0) == 0;
    } else {
      XorTopBit(n - 1, a / 2, b / 2);
    }
  }

  lemma XorBound(n: nat, a: nat, b: nat)
    requires a < Pow2(n) && b < Pow2(n)
    ensures Xor(a, b) < Pow2(n)
  {
    XorTopBit(n, a, b);
  }

  /** Regrouping of four terms, the step behind every linearity proof. */
  lemma XorSwap(a: nat, b: nat, c: nat, d: nat)
    ensures Xor(Xor(a, b), Xor(c, d)) == Xor(Xor(a, c), Xor(b, d))
  {
    XorAssoc(a, b, Xor(c, d));
    XorAssoc(b, c, d);
    XorComm(b, c);
    XorAssoc(c, b, d);
    XorAssoc(a, c, Xor(b, d));
  }
}
