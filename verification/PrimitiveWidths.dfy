/** Moduli of the coder for which 2 is a primitive element, so that the theorems about the field apply to them. */
module PrimitiveWidths {
  import opened Bits
  import opened GaloisField

  // ---------- Exclusive or, bit by bit ----------

  /** An operation that combines words bit by bit, like exclusive or. */
  ghost predicate Bitwise(x: (nat, nat) -> nat) { x(1, 1) == 0 && forall a, b, p, q | p < 2 && q < 2 :: JoinsAt(x, a, b, p, q) }

  ghost predicate JoinsAt(x: (nat, nat) -> nat, a: nat, b: nat, p: nat, q: nat) {
    x(2 * a + p, 2 * b + q) == 2 * x(a, b) + (p + q) % 2
  }

  lemma XorBitwise()
    ensures Bitwise(Xor)
  {
    XorSelf(1);
    forall a: nat, b: nat, p: nat, q: nat | p < 2 && q < 2 ensures JoinsAt(Xor, a, b, p, q) { XorJoin(a, b, p, q); }
  }

  // ---------- The powers of 2 ----------

  /** A sequence of words in which every word is doubled by the next, and reduced if it gets too long. */
  ghost predicate Doubling(e: nat -> nat, n: nat, x: (nat, nat) -> nat, poly: nat) { forall i: nat :: DoublesAt(e, n, x, poly, i) }

  ghost predicate DoublesAt(e: nat -> nat, n: nat, x: (nat, nat) -> nat, poly: nat, i: nat) {
    e(i + 1) == if 2 * e(i) >= n then x(2 * e(i), poly) else 2 * e(i)
  }

  lemma ExpDoubles(g: GF, e: nat -> nat)
    requires forall i: nat :: e(i) == g.Exp(i)
    ensures Doubling(e, g.N(), Xor, g.poly) && e(0) == 1
  {
    forall i: nat ensures DoublesAt(e, g.N(), Xor, g.poly, i) {
      assert g.Exp(i + 1) == g.XTime(g.Exp(i));
    }
    assert g.Exp(0) == 1;
  }

  // ---------- Three and four bits ----------

  lemma ThreeBits(x: (nat, nat) -> nat)
    requires Bitwise(x)
    ensures x(8, 0xB) == 3 && x(12, 0xB) == 7 && x(14, 0xB) == 5 && x(10, 0xB) == 1
  {
    assert JoinsAt(x, 1, 1, 0, 0);
    assert JoinsAt(x, 2, 2, 0, 1);
    assert JoinsAt(x, 4, 5, 0, 1);
    assert JoinsAt(x, 1, 1, 1, 0);
    assert JoinsAt(x, 3, 2, 0, 1);
    assert JoinsAt(x, 6, 5, 0, 1);
    assert JoinsAt(x, 3, 2, 1, 1);
    assert JoinsAt(x, 7, 5, 0, 1);
    assert JoinsAt(x, 2, 2, 1, 1);
    assert JoinsAt(x, 5, 5, 0, 1);
  }

  lemma ThreePowers(e: nat -> nat, x: (nat, nat) -> nat)
    requires Bitwise(x) && Doubling(e, 8, x, 0xB) && e(0) == 1
    ensures e(7) == 1 && forall i :: 0 < i < 7 ==> e(i) != 1
  {
    ThreeBits(x);
    assert DoublesAt(e, 8, x, 0xB, 0);
    assert DoublesAt(e, 8, x, 0xB, 1);
    assert DoublesAt(e, 8, x, 0xB, 2);
    assert DoublesAt(e, 8, x, 0xB, 3);
    assert DoublesAt(e, 8, x, 0xB, 4);
    assert DoublesAt(e, 8, x, 0xB, 5);
    assert DoublesAt(e, 8, x, 0xB, 6);
  }

  /** Modulus 0xB for symbols of three bits. */
  lemma WidthThree()
    ensures GF(3, 0xB).Primitive()
  {
    var g := GF(3, 0xB);
    var e := (i: nat) => g.Exp(i);
    assert g.N() == 8;
    ExpDoubles(g, e);
    XorBitwise();
    ThreePowers(e, Xor);
    assert forall i: nat :: e(i) == g.Exp(i);
  }

  lemma FourBits(x: (nat, nat) -> nat)
    requires Bitwise(x)
    ensures x(16, 0x13) == 3 && x(24, 0x13) == 11 && x(22, 0x13) == 5 && x(20, 0x13) == 7
    ensures x(28, 0x13) == 15 && x(30, 0x13) == 13 && x(26, 0x13) == 9 && x(18, 0x13) == 1
  {
    assert JoinsAt(x, 1, 1, 0, 0);
    assert JoinsAt(x, 2, 2, 0, 0);
    assert JoinsAt(x, 4, 4, 0, 1);
    assert JoinsAt(x, 8, 9, 0, 1);
    assert JoinsAt(x, 1, 1, 1, 0);
    assert JoinsAt(x, 3, 2, 0, 0);
    assert JoinsAt(x, 6, 4, 0, 1);
    assert JoinsAt(x, 12, 9, 0, 1);
    assert JoinsAt(x, 2, 2, 1, 0);
    assert JoinsAt(x, 5, 4, 1, 1);
    assert JoinsAt(x, 11, 9, 0, 1);
    assert JoinsAt(x, 5, 4, 0, 1);
    assert JoinsAt(x, 10, 9, 0, 1);
    assert JoinsAt(x, 3, 2, 1, 0);
    assert JoinsAt(x, 7, 4, 0, 1);
    assert JoinsAt(x, 14, 9, 0, 1);
    assert JoinsAt(x, 7, 4, 1, 1);
    assert JoinsAt(x, 15, 9, 0, 1);
    assert JoinsAt(x, 6, 4, 1, 1);
    assert JoinsAt(x, 13, 9, 0, 1);
    assert JoinsAt(x, 4, 4, 1, 1);
    assert JoinsAt(x, 9, 9, 0, 1);
  }

  lemma FourPowers(e: nat -> nat, x: (nat, nat) -> nat)
    requires Bitwise(x) && Doubling(e, 16, x, 0x13) && e(0) == 1
    ensures e(15) == 1 && forall i :: 0 < i < 15 ==> e(i) != 1
  {
    FourBits(x);
    assert DoublesAt(e, 16, x, 0x13, 0);
    assert DoublesAt(e, 16, x, 0x13, 1);
    assert DoublesAt(e, 16, x, 0x13, 2);
    assert DoublesAt(e, 16, x, 0x13, 3);
    assert DoublesAt(e, 16, x, 0x13, 4);
    assert DoublesAt(e, 16, x, 0x13, 5);
    assert DoublesAt(e, 16, x, 0x13, 6);
    assert DoublesAt(e, 16, x, 0x13, 7);
    assert DoublesAt(e, 16, x, 0x13, 8);
    assert DoublesAt(e, 16, x, 0x13, 9);
    assert DoublesAt(e, 16, x, 0x13, 10);
    assert DoublesAt(e, 16, x, 0x13, 11);
    assert DoublesAt(e, 16, x, 0x13, 12);
    assert DoublesAt(e, 16, x, 0x13, 13);
    assert DoublesAt(e, 16, x, 0x13, 14);
  }

  /** Modulus 0x13 for symbols of four bits. */
  lemma WidthFour()
    ensures GF(4, 0x13).Primitive()
  {
    var g := GF(4, 0x13);
    var e := (i: nat) => g.Exp(i);
    assert g.N() == 16;
    ExpDoubles(g, e);
    XorBitwise();
    FourPowers(e, Xor);
    assert forall i: nat :: e(i) == g.Exp(i);
  }

  // ---------- Bytes ----------

  /** Doubling modulo 0x11D as arithmetic: bits 2, 3 and 4 are inverted and bit 0 is set. */
  function NextByte(x: nat): int { if x < 128 then 2 * x else 2 * x - 227 - 8 * (x / 2 % 8) }

  lemma ThreeBitsOf(s: nat) returns (b: nat, c: nat, d: nat)
    requires s < 8
    ensures b < 2 && c < 2 && d < 2 && s == 4 * b + 2 * c + d
  {
    b := if s >= 4 then 1 else 0;
    c := if s - 4 * b >= 2 then 1 else 0;
    d := s - 4 * b - 2 * c;
  }

  /** The upper four bits against 1000. */
  lemma TopBits(x: (nat, nat) -> nat, w: nat)
    requires Bitwise(x) && 8 <= w < 16
    ensures x(w, 8) == w - 8
  {
    var b, c, d := ThreeBitsOf(w - 8);
    assert JoinsAt(x, 1, 1, b, 0);
    assert JoinsAt(x, 2 + b, 2, c, 0);
    assert JoinsAt(x, 4 + 2 * b + c, 4, d, 0);
  }

  /** The rest, from the top down. */
  lemma LowBits(x: (nat, nat) -> nat, w: nat, s: nat, e: nat)
    requires Bitwise(x) && s < 8 && e < 2
    ensures x(32 * w + 4 * s + 2 * e, 0x11D) == 32 * x(w, 8) + 4 * (7 - s) + 2 * e + 1
  {
    var b, c, d := ThreeBitsOf(s);
    assert JoinsAt(x, w, 8, b, 1);
    assert JoinsAt(x, 2 * w + b, 17, c, 1);
    assert JoinsAt(x, 4 * w + 2 * b + c, 35, d, 1);
    assert JoinsAt(x, 8 * w + s, 71, e, 0);
    assert JoinsAt(x, 16 * w + 2 * s + e, 142, 0, 1);
  }

  lemma XorModulus(x: (nat, nat) -> nat, v: nat)
    requires Bitwise(x) && 128 <= v < 256
    ensures x(2 * v, 0x11D) == NextByte(v)
  {
    var u := v / 2;
    TopBits(x, u / 8);
    LowBits(x, u / 8, u % 8, v % 2);
    assert 2 * v == 32 * (u / 8) + 4 * (u % 8) + 2 * (v % 2);
  }

  /** The sequence doubles bytes. */
  ghost predicate ByteDoubling(e: nat -> nat) { forall i: nat :: NextAt(e, i) }

  ghost predicate NextAt(e: nat -> nat, i: nat) { e(i) < 256 ==> e(i + 1) == NextByte(e(i)) }

  lemma BytesDouble(e: nat -> nat, x: (nat, nat) -> nat)
    requires Bitwise(x) && Doubling(e, 256, x, 0x11D)
    ensures ByteDoubling(e)
  {
    forall i: nat ensures NextAt(e, i) {
      assert DoublesAt(e, 256, x, 0x11D, i);
      if 128 <= e(i) < 256 { XorModulus(x, e(i)); }
    }
  }

  predicate Link(x: nat, y: nat) { 1 != x < 256 && y == NextByte(x) }

  ghost predicate NoOne(e: nat -> nat, lo: nat, hi: nat) { forall i: nat :: lo <= i < hi ==> e(i) != 1 }

  lemma Two(e: nat -> nat, i: nat, a: nat, b: nat, c: nat)
    requires ByteDoubling(e) && e(i) == a && Link(a, b) && Link(b, c)
    ensures e(i + 2) == c && NoOne(e, i, i + 2)
  {
    assert NextAt(e, i) && NextAt(e, i + 1);
  }

  /** Eight doublings, none of which starts from 1. */
  lemma Eight(e: nat -> nat, i: nat, a: nat, b: nat, c: nat, d: nat, f: nat, g: nat, h: nat, j: nat, k: nat)
    requires ByteDoubling(e) && e(i) == a
    requires Link(a, b) && Link(b, c) && Link(c, d) && Link(d, f) && Link(f, g) && Link(g, h) && Link(h, j) && Link(j, k)
    ensures e(i + 8) == k && NoOne(e, i, i + 8)
  {
    Two(e, i, a, b, c);
    Two(e, i + 2, c, d, f);
    Two(e, i + 4, f, g, h);
    Two(e, i + 6, h, j, k);
  }

  lemma Stretch0(e: nat -> nat, i: nat)
    requires ByteDoubling(e) && e(i) == 2
    ensures e(i + 6) == 128 && NoOne(e, i, i + 6)
  {
    Two(e, i, 2, 4, 8);
    Two(e, i + 2, 8, 16, 32);
    Two(e, i + 4, 32, 64, 128);
  }

  lemma Stretch1(e: nat -> nat, i: nat)
    requires ByteDoubling(e) && e(i) == 128
    ensures e(i + 40) == 35 && NoOne(e, i, i + 40)
  {
    Eight(e, i, 128, 29, 58, 116, 232, 205, 135, 19, 38);
    Eight(e, i + 8, 38, 76, 152, 45, 90, 180, 117, 234, 201);
    Eight(e, i + 16, 201, 143, 3, 6, 12, 24, 48, 96, 192);
    Eight(e, i + 24, 192, 157, 39, 78, 156, 37, 74, 148, 53);
    Eight(e, i + 32, 53, 106, 212, 181, 119, 238, 193, 159, 35);
  }

  lemma Stretch2(e: nat -> nat, i: nat)
    requires ByteDoubling(e) && e(i) == 35
    ensures e(i + 40) == 127 && NoOne(e, i, i + 40)
  {
    Eight(e, i, 35, 70, 140, 5, 10, 20, 40, 80, 160);
    Eight(e, i + 8, 160, 93, 186, 105, 210, 185, 111, 222, 161);
    Eight(e, i + 16, 161, 95, 190, 97, 194, 153, 47, 94, 188);
    Eight(e, i + 24, 188, 101, 202, 137, 15, 30, 60, 120, 240);
    Eight(e, i + 32, 240, 253, 231, 211, 187, 107, 214, 177, 127);
  }

  lemma Stretch3(e: nat -> nat, i: nat)
    requires ByteDoubling(e) && e(i) == 127
    ensures e(i + 40) == 204 && NoOne(e, i, i + 40)
  {
    Eight(e, i, 127, 254, 225, 223, 163, 91, 182, 113, 226);
    Eight(e, i + 8, 226, 217, 175, 67, 134, 17, 34, 68, 136);
    Eight(e, i + 16, 136, 13, 26, 52, 104, 208, 189, 103, 206);
    Eight(e, i + 24, 206, 129, 31, 62, 124, 248, 237, 199, 147);
    Eight(e, i + 32, 147, 59, 118, 236, 197, 151, 51, 102, 204);
  }

  lemma Stretch4(e: nat -> nat, i: nat)
    requires ByteDoubling(e) && e(i) == 204
    ensures e(i + 40) == 126 && NoOne(e, i, i + 40)
  {
    Eight(e, i, 204, 133, 23, 46, 92, 184, 109, 218, 169);
    Eight(e, i + 8, 169, 79, 158, 33, 66, 132, 21, 42, 84);
    Eight(e, i + 16, 84, 168, 77, 154, 41, 82, 164, 85, 170);
    Eight(e, i + 24, 170, 73, 146, 57, 114, 228, 213, 183, 115);
    Eight(e, i + 32, 115, 230, 209, 191, 99, 198, 145, 63, 126);
  }

  lemma Stretch5(e: nat -> nat, i: nat)
    requires ByteDoubling(e) && e(i) == 126
    ensures e(i + 40) == 166 && NoOne(e, i, i + 40)
  {
    Eight(e, i, 126, 252, 229, 215, 179, 123, 246, 241, 255);
    Eight(e, i + 8, 255, 227, 219, 171, 75, 150, 49, 98, 196);
    Eight(e, i + 16, 196, 149, 55, 110, 220, 165, 87, 174, 65);
    Eight(e, i + 24, 65, 130, 25, 50, 100, 200, 141, 7, 14);
    Eight(e, i + 32, 14, 28, 56, 112, 224, 221, 167, 83, 166);
  }

  lemma Stretch6(e: nat -> nat, i: nat)
    requires ByteDoubling(e) && e(i) == 166
    ensures e(i + 48) == 1 && NoOne(e, i, i + 48)
  {
    Eight(e, i, 166, 81, 162, 89, 178, 121, 242, 249, 239);
    Eight(e, i + 8, 239, 195, 155, 43, 86, 172, 69, 138, 9);
    Eight(e, i + 16, 9, 18, 36, 72, 144, 61, 122, 244, 245);
    Eight(e, i + 24, 245, 247, 243, 251, 235, 203, 139, 11, 22);
    Eight(e, i + 32, 22, 44, 88, 176, 125, 250, 233, 207, 131);
    Eight(e, i + 40, 131, 27, 54, 108, 216, 173, 71, 142, 1);
  }

  /** From 2 on, 1 comes back after 254 doublings and not before. */
  lemma ByteCycle(e: nat -> nat, i: nat)
    requires ByteDoubling(e) && e(i) == 2
    ensures e(i + 254) == 1 && NoOne(e, i, i + 254)
  {
    Stretch0(e, i);
    Stretch1(e, i + 6);
    Stretch2(e, i + 46);
    Stretch3(e, i + 86);
    Stretch4(e, i + 126);
    Stretch5(e, i + 166);
    Stretch6(e, i + 206);
  }

  lemma BytePowers(e: nat -> nat, x: (nat, nat) -> nat)
    requires Bitwise(x) && Doubling(e, 256, x, 0x11D) && e(0) == 1
    ensures e(255) == 1 && forall i :: 0 < i < 255 ==> e(i) != 1
  {
    BytesDouble(e, x);
    assert NextAt(e, 0);
    ByteCycle(e, 1);
    assert NoOne(e, 1, 255);
  }

  /** Modulus 0x11D for bytes, the width of the streaming encoder and of the boosters. */
  lemma WidthEight()
    ensures GF(8, 0x11D).Primitive()
  {
    var g := GF(8, 0x11D);
    var e := (i: nat) => g.Exp(i);
    assert g.N() == 256;
    ExpDoubles(g, e);
    XorBitwise();
    BytePowers(e, Xor);
    assert forall i: nat :: e(i) == g.Exp(i);
  }
}
