/**
 * Linear algebra over an abstract finite field of characteristic two. The field is a record of
 * operations, so that nothing here depends on how symbols are represented.
 */
module Algebra {

  datatype Field = Field(size: nat, add: (nat, nat) -> nat, mul: (nat, nat) -> nat, inv: nat -> nat)

  type Vec = seq<nat>
  type Matrix = seq<seq<nat>>

  /** Names an instance of the field laws; its only purpose is to be mentioned. */
  predicate At(x: nat, y: nat, z: nat) { true }

  ghost predicate LawsAt(f: Field, x: nat, y: nat, z: nat) {
    && f.add(x, y) < f.size && f.mul(x, y) < f.size
    && f.add(x, y) == f.add(y, x) && f.add(f.add(x, y), z) == f.add(x, f.add(y, z))
    && f.add(x, 0) == x && f.add(x, x) == 0
    && f.mul(x, y) == f.mul(y, x) && f.mul(f.mul(x, y), z) == f.mul(x, f.mul(y, z))
    && f.mul(x, 1) == x && f.mul(x, 0) == 0
    && f.mul(f.add(x, y), z) == f.add(f.mul(x, z), f.mul(y, z))
    && (x != 0 ==> 0 < f.inv(x) < f.size && f.mul(x, f.inv(x)) == 1)
  }

  ghost predicate IsField(f: Field) {
    && f.size >= 2
    && forall x: nat, y: nat, z: nat {:trigger At(x, y, z)} ::
         x < f.size && y < f.size && z < f.size ==> LawsAt(f, x, y, z)
  }

  lemma Laws(f: Field, x: nat, y: nat, z: nat)
    requires IsField(f) && x < f.size && y < f.size && z < f.size
    ensures LawsAt(f, x, y, z)
  {
    assert At(x, y, z);
  }

  predicate VecIn(f: Field, v: Vec, n: nat) {
    |v| == n && forall i :: 0 <= i < n ==> v[i] < f.size
  }

  predicate MatrixIn(f: Field, a: Matrix, rows: nat, cols: nat) {
    |a| == rows && forall i :: 0 <= i < rows ==> VecIn(f, a[i], cols)
  }

  // ---------- Small consequences of the laws ----------

  lemma Zero(f: Field, x: nat)
    requires IsField(f) && x < f.size
    ensures f.mul(0, x) == 0 && f.mul(x, 0) == 0 && f.add(0, x) == x && f.add(x, 0) == x
    ensures f.mul(1, x) == x && f.mul(x, 1) == x && f.add(x, x) == 0
  {
    Laws(f, x, 0, 0);
    Laws(f, 0, x, 0);
    Laws(f, x, 1, 0);
  }

  lemma NoZeroDivisors(f: Field, x: nat, y: nat)
    requires IsField(f) && x < f.size && y < f.size && x != 0 && f.mul(x, y) == 0
    ensures y == 0
  {
    Laws(f, x, y, 0);
    Laws(f, f.inv(x), x, y);
    Zero(f, y);
    Zero(f, f.inv(x));
  }

  lemma AddCancel(f: Field, x: nat, y: nat)
    requires IsField(f) && x < f.size && y < f.size && f.add(x, y) == 0
    ensures x == y
  {
    Laws(f, x, y, y);
    Zero(f, x);
    Zero(f, y);
  }

  lemma AddSwap(f: Field, a: nat, b: nat, c: nat, d: nat)
    requires IsField(f) && a < f.size && b < f.size && c < f.size && d < f.size
    ensures f.add(f.add(a, b), f.add(c, d)) == f.add(f.add(a, c), f.add(b, d))
  {
    Laws(f, c, d, a);
    Laws(f, a, b, f.add(c, d));
    Laws(f, b, c, d);
    Laws(f, c, b, d);
    Laws(f, b, d, a);
    Laws(f, a, c, f.add(b, d));
  }

  lemma MulAdd(f: Field, x: nat, y: nat, z: nat)
    requires IsField(f) && x < f.size && y < f.size && z < f.size
    ensures f.mul(z, f.add(x, y)) == f.add(f.mul(z, x), f.mul(z, y))
  {
    Laws(f, x, y, z);
    Laws(f, f.add(x, y), z, 0);
    Laws(f, x, z, 0);
    Laws(f, y, z, 0);
  }

  // ---------- Inner products ----------

  /** The inner product of the first n entries. */
  function Dot(f: Field, r: Vec, v: Vec, n: nat): nat
    requires n <= |r| && n <= |v|
  {
    if n == 0 then 0 else f.add(Dot(f, r, v, n - 1), f.mul(r[n - 1], v[n - 1]))
  }

  lemma {:induction false} DotIn(f: Field, r: Vec, v: Vec, n: nat)
    requires IsField(f) && n <= |r| && n <= |v|
    requires forall i :: 0 <= i < n ==> r[i] < f.size && v[i] < f.size
    ensures Dot(f, r, v, n) < f.size
  {
    if n != 0 {
      DotIn(f, r, v, n - 1);
      Laws(f, r[n - 1], v[n - 1], 0);
      Laws(f, Dot(f, r, v, n - 1), f.mul(r[n - 1], v[n - 1]), 0);
    }
  }

  function Scale(f: Field, r: Vec, c: nat): Vec { seq<nat>(|r|, j requires 0 <= j < |r| => f.mul(r[j], c)) }

  function Sum(f: Field, r: Vec, s: Vec): Vec
    requires |r| == |s|
  {
    seq<nat>(|r|, j requires 0 <= j < |r| => f.add(r[j], s[j]))
  }

  lemma {:induction false} DotScale(f: Field, r: Vec, c: nat, v: Vec, n: nat)
    requires IsField(f) && c < f.size && n <= |r| && n <= |v|
    requires forall i :: 0 <= i < n ==> r[i] < f.size && v[i] < f.size
    ensures Dot(f, Scale(f, r, c), v, n) == f.mul(c, Dot(f, r, v, n))
  {
    Zero(f, c);
    if n != 0 {
      DotScale(f, r, c, v, n - 1);
      var x, y := r[n - 1], v[n - 1];
      DotIn(f, r, v, n - 1);
      Laws(f, x, y, 0);
      Laws(f, x, c, 0);
      Laws(f, c, x, y);
      MulAdd(f, Dot(f, r, v, n - 1), f.mul(x, y), c);
    }
  }

  lemma {:induction false} DotSum(f: Field, r: Vec, s: Vec, v: Vec, n: nat)
    requires IsField(f) && |r| == |s| && n <= |r| && n <= |v|
    requires forall i :: 0 <= i < n ==> r[i] < f.size && s[i] < f.size && v[i] < f.size
    ensures Dot(f, Sum(f, r, s), v, n) == f.add(Dot(f, r, v, n), Dot(f, s, v, n))
  {
    if n == 0 {
      Zero(f, 0);
    } else {
      DotSum(f, r, s, v, n - 1);
      var x, y, z := r[n - 1], s[n - 1], v[n - 1];
      DotIn(f, r, v, n - 1);
      DotIn(f, s, v, n - 1);
      Laws(f, x, y, z);
      Laws(f, x, z, 0);
      Laws(f, y, z, 0);
      AddSwap(f, Dot(f, r, v, n - 1), Dot(f, s, v, n - 1), f.mul(x, z), f.mul(y, z));
    }
  }

  /** Terms whose row entry or vector entry is zero do not contribute. */
  lemma {:induction false} DotZero(f: Field, r: Vec, v: Vec, n: nat)
    requires IsField(f) && n <= |r| && n <= |v|
    requires forall i :: 0 <= i < n ==> r[i] < f.size && v[i] < f.size && (r[i] == 0 || v[i] == 0)
    ensures Dot(f, r, v, n) == 0
  {
    if n != 0 {
      DotZero(f, r, v, n - 1);
      Zero(f, r[n - 1]);
      Zero(f, v[n - 1]);
      Zero(f, 0);
    }
  }

  /** Only the term at j can be non-zero. */
  lemma {:induction false} DotSingle(f: Field, r: Vec, v: Vec, n: nat, j: nat)
    requires IsField(f) && j < n <= |r| && n <= |v|
    requires forall i :: 0 <= i < n ==> r[i] < f.size && v[i] < f.size
    requires forall i :: 0 <= i < n && i != j ==> r[i] == 0 || v[i] == 0
    ensures Dot(f, r, v, n) == f.mul(r[j], v[j])
  {
    Laws(f, r[n - 1], v[n - 1], 0);
    if j == n - 1 {
      DotZero(f, r, v, n - 1);
      Zero(f, f.mul(r[j], v[j]));
    } else {
      DotSingle(f, r, v, n - 1, j);
      Zero(f, r[n - 1]);
      Zero(f, v[n - 1]);
      Laws(f, r[j], v[j], 0);
      Zero(f, f.mul(r[j], v[j]));
    }
  }

  /** Only the terms at j and l can be non-zero. */
  lemma {:induction false} DotPair(f: Field, r: Vec, v: Vec, n: nat, j: nat, l: nat)
    requires IsField(f) && j < n <= |r| && l < n <= |v| && j != l
    requires forall i :: 0 <= i < n ==> r[i] < f.size && v[i] < f.size
    requires forall i :: 0 <= i < n && i != j && i != l ==> r[i] == 0 || v[i] == 0
    ensures Dot(f, r, v, n) == f.add(f.mul(r[j], v[j]), f.mul(r[l], v[l]))
  {
    Laws(f, r[j], v[j], 0);
    Laws(f, r[l], v[l], 0);
    Laws(f, f.mul(r[j], v[j]), f.mul(r[l], v[l]), 0);
    if j == n - 1 {
      DotSingle(f, r, v, n - 1, l);
    } else if l == n - 1 {
      DotSingle(f, r, v, n - 1, j);
    } else {
      DotPair(f, r, v, n - 1, j, l);
      Zero(f, r[n - 1]);
      Zero(f, v[n - 1]);
      Zero(f, f.add(f.mul(r[j], v[j]), f.mul(r[l], v[l])));
    }
  }

  lemma {:induction false} DotAgree(f: Field, r: Vec, s: Vec, v: Vec, w: Vec, n: nat)
    requires n <= |r| && n <= |s| && n <= |v| && n <= |w|
    requires forall i :: 0 <= i < n ==> r[i] == s[i] && v[i] == w[i]
    ensures Dot(f, r, v, n) == Dot(f, s, w, n)
  {
    if n != 0 { DotAgree(f, r, s, v, w, n - 1); }
  }

  /** Vectors may differ where the row is zero. */
  lemma {:induction false} DotMasked(f: Field, r: Vec, v: Vec, w: Vec, n: nat)
    requires IsField(f) && n <= |r| && n <= |v| && n <= |w|
    requires forall i :: 0 <= i < n ==> v[i] < f.size && w[i] < f.size && (v[i] == w[i] || r[i] == 0)
    ensures Dot(f, r, v, n) == Dot(f, r, w, n)
  {
    if n != 0 {
      DotMasked(f, r, v, w, n - 1);
      Zero(f, v[n - 1]);
      Zero(f, w[n - 1]);
    }
  }

  lemma {:induction false} DotSumRight(f: Field, r: Vec, v: Vec, w: Vec, n: nat)
    requires IsField(f) && |v| == |w| && n <= |r| && n <= |v|
    requires forall i :: 0 <= i < n ==> r[i] < f.size && v[i] < f.size && w[i] < f.size
    ensures Dot(f, r, Sum(f, v, w), n) == f.add(Dot(f, r, v, n), Dot(f, r, w, n))
  {
    if n == 0 {
      Zero(f, 0);
    } else {
      DotSumRight(f, r, v, w, n - 1);
      var x, y, z := r[n - 1], v[n - 1], w[n - 1];
      DotIn(f, r, v, n - 1);
      DotIn(f, r, w, n - 1);
      MulAdd(f, y, z, x);
      Laws(f, x, y, 0);
      Laws(f, x, z, 0);
      AddSwap(f, Dot(f, r, v, n - 1), Dot(f, r, w, n - 1), f.mul(x, y), f.mul(x, z));
    }
  }

  /** Splitting off one column. */
  lemma {:induction false} DotWithout(f: Field, r: Vec, v: Vec, n: nat, c: nat)
    requires IsField(f) && c < n <= |r| && n <= |v|
    requires forall i :: 0 <= i < n ==> r[i] < f.size && v[i] < f.size
    ensures Dot(f, r, v, n) == f.add(Dot(f, r, v[c := 0], n), f.mul(r[c], v[c]))
  {
    var w := v[c := 0];
    DotIn(f, r, w, n - 1);
    Laws(f, r[c], v[c], 0);
    if c == n - 1 {
      DotAgree(f, r, r, v, w, c);
      Zero(f, r[c]);
      Zero(f, Dot(f, r, w, c));
    } else {
      DotWithout(f, r, v, n - 1, c);
      var x, y, z := Dot(f, r, w, n - 1), f.mul(r[c], v[c]), f.mul(r[n - 1], v[n - 1]);
      Laws(f, r[n - 1], v[n - 1], 0);
      Laws(f, x, y, z);
      Laws(f, y, z, 0);
      Laws(f, x, z, y);
    }
  }

  predicate Distinct(s: seq<nat>) { forall i, j :: 0 <= i < j < |s| ==> s[i] != s[j] }

  function Gather(r: Vec, cs: seq<nat>): Vec
    requires forall i :: 0 <= i < |cs| ==> cs[i] < |r|
  {
    seq<nat>(|cs|, i requires 0 <= i < |cs| => r[cs[i]])
  }

  /** An inner product over all columns, when v is zero outside the first l listed ones. */
  lemma {:induction false} DotGather(f: Field, r: Vec, v: Vec, cs: seq<nat>, l: nat)
    requires IsField(f) && VecIn(f, r, |v|) && VecIn(f, v, |v|) && l <= |cs| && Distinct(cs)
    requires forall i :: 0 <= i < |cs| ==> cs[i] < |v|
    requires forall j :: 0 <= j < |v| && v[j] != 0 ==> j in cs[..l]
    ensures Dot(f, r, v, |v|) == Dot(f, Gather(r, cs), Gather(v, cs), l)
    decreases l
  {
    if l == 0 {
      DotZero(f, r, v, |v|);
    } else {
      var c := cs[l - 1];
      var w := v[c := 0];
      assert cs[..l] == cs[..l - 1] + [c];
      DotGather(f, r, w, cs, l - 1);
      DotAgree(f, Gather(r, cs), Gather(r, cs), Gather(w, cs), Gather(v, cs), l - 1);
      DotWithout(f, r, v, |v|, c);
    }
  }

  /** Dropping the first term. */
  lemma {:induction false} DotTail(f: Field, r: Vec, v: Vec, n: nat)
    requires IsField(f) && n < |r| && n < |v|
    requires forall i :: 0 <= i <= n ==> r[i] < f.size && v[i] < f.size
    ensures Dot(f, r, v, n + 1) == f.add(f.mul(r[0], v[0]), Dot(f, r[1..], v[1..], n))
  {
    var x := f.mul(r[0], v[0]);
    Laws(f, r[0], v[0], 0);
    if n == 0 {
      Zero(f, x);
      assert Dot(f, r, v, 0) == 0;
    } else {
      DotTail(f, r, v, n - 1);
      var y, z := Dot(f, r[1..], v[1..], n - 1), f.mul(r[n], v[n]);
      DotIn(f, r[1..], v[1..], n - 1);
      Laws(f, r[n], v[n], 0);
      Laws(f, x, y, z);
    }
  }

  // ---------- Homogeneous systems ----------

  /** v satisfies the first k equations. */
  ghost predicate Solves(f: Field, a: Matrix, k: nat, v: Vec)
    requires k <= |a| && forall i :: 0 <= i < |a| ==> |a[i]| == |v|
  {
    forall i :: 0 <= i < k ==> Dot(f, a[i], v, |v|) == 0
  }
}
