/**
 * The erasure code: a Vandermonde parity-check matrix brought to systematic form. Every square
 * submatrix of its data columns is non-singular, so any h parity packets replace any h data packets.
 */
module ErasureCode {
  import opened Algebra
  import opened Elimination

  // ---------- The parity-check matrix ----------

  function Pow(f: Field, x: nat, i: nat): nat {
    if i == 0 then 1 else f.mul(x, Pow(f, x, i - 1))
  }

  /** Row i of the matrix codewords_generate fills in: the i-th powers of 1, 2, ..., n. */
  function VRow(f: Field, i: nat, n: nat): Vec { seq<nat>(n, j requires 0 <= j < n => Pow(f, j + 1, i)) }

  function Vandermonde(f: Field, h: nat, n: nat): Matrix {
    seq<Vec>(h, i requires 0 <= i < h => VRow(f, i, n))
  }

  lemma {:induction false} PowIn(f: Field, x: nat, i: nat)
    requires IsField(f) && x < f.size
    ensures Pow(f, x, i) < f.size
  {
    if i != 0 {
      PowIn(f, x, i - 1);
      Laws(f, x, Pow(f, x, i - 1), 0);
    }
  }

  lemma VRowIn(f: Field, i: nat, n: nat)
    requires IsField(f) && n < f.size
    ensures VecIn(f, VRow(f, i, n), n)
  {
    forall j | 0 <= j < n ensures VRow(f, i, n)[j] < f.size { PowIn(f, j + 1, i); }
  }

  // ---------- The kernel of the parity-check matrix ----------

  ghost predicate SupportIn(v: Vec, s: set<nat>) {
    forall j :: 0 <= j < |v| && v[j] != 0 ==> j in s
  }

  /** Each entry times the difference of its point and the point of column c. */
  function Deflate(f: Field, v: Vec, c: nat): Vec {
    seq<nat>(|v|, j requires 0 <= j < |v| => f.mul(v[j], f.add(j + 1, c + 1)))
  }

  lemma DeflateTerm(f: Field, p: nat, x: nat, c: nat, v: nat)
    requires IsField(f) && p < f.size && x < f.size && c < f.size && v < f.size
    ensures f.mul(p, f.mul(v, f.add(x, c))) == f.add(f.mul(f.mul(x, p), v), f.mul(c, f.mul(p, v)))
  {
    Laws(f, x, c, 0);
    Laws(f, p, v, f.add(x, c));
    Laws(f, p, v, 0);
    MulAdd(f, x, c, f.mul(p, v));
    Laws(f, f.mul(p, v), c, 0);
    Laws(f, f.mul(p, v), x, 0);
    Laws(f, x, p, v);
  }

  lemma CombineTerms(f: Field, x: nat, y: nat, q: nat, s: nat, c: nat)
    requires IsField(f) && x < f.size && y < f.size && q < f.size && s < f.size && c < f.size
    ensures f.add(f.add(x, f.mul(c, y)), f.add(q, f.mul(c, s))) == f.add(f.add(x, q), f.mul(c, f.add(y, s)))
  {
    Laws(f, c, y, 0);
    Laws(f, c, s, 0);
    MulAdd(f, y, s, c);
    AddSwap(f, x, f.mul(c, y), q, f.mul(c, s));
  }

  /** The inner product of a deflated vector, for any row whose successor multiplies by the points. */
  lemma {:induction false} DeflateRow(f: Field, r: Vec, r': Vec, v: Vec, w: Vec, c: nat, n: nat)
    requires IsField(f) && n <= |v| < f.size && c < |v|
    requires VecIn(f, r, |v|) && VecIn(f, r', |v|) && VecIn(f, v, |v|) && |w| == |v|
    requires forall j :: 0 <= j < |v| ==> r'[j] == f.mul(j + 1, r[j])
    requires forall j :: 0 <= j < |v| ==> w[j] == f.mul(v[j], f.add(j + 1, c + 1))
    ensures Dot(f, r, w, n) == f.add(Dot(f, r', v, n), f.mul(c + 1, Dot(f, r, v, n)))
  {
    if n == 0 {
      Zero(f, c + 1);
      Zero(f, 0);
    } else {
      DeflateRow(f, r, r', v, w, c, n - 1);
      DotIn(f, r', v, n - 1);
      DotIn(f, r, v, n - 1);
      var p, y := r[n - 1], v[n - 1];
      DeflateTerm(f, p, n, c + 1, y);
      Laws(f, r'[n - 1], y, 0);
      Laws(f, p, y, 0);
      CombineTerms(f, Dot(f, r', v, n - 1), Dot(f, r, v, n - 1), f.mul(r'[n - 1], y), f.mul(p, y), c + 1);
    }
  }

  /** Deflating turns rows i and i + 1 of the original system into row i of the deflated one. */
  lemma DeflateDot(f: Field, i: nat, v: Vec, c: nat)
    requires IsField(f) && c < |v| < f.size && VecIn(f, v, |v|)
    ensures Dot(f, VRow(f, i, |v|), Deflate(f, v, c), |v|) ==
            f.add(Dot(f, VRow(f, i + 1, |v|), v, |v|), f.mul(c + 1, Dot(f, VRow(f, i, |v|), v, |v|)))
  {
    VRowIn(f, i, |v|);
    VRowIn(f, i + 1, |v|);
    DeflateRow(f, VRow(f, i, |v|), VRow(f, i + 1, |v|), v, Deflate(f, v, c), c, |v|);
  }

  lemma DeflateIn(f: Field, v: Vec, c: nat, s: set<nat>)
    requires IsField(f) && |v| < f.size && c < |v| && VecIn(f, v, |v|) && SupportIn(v, s)
    ensures VecIn(f, Deflate(f, v, c), |v|) && SupportIn(Deflate(f, v, c), s - {c})
    ensures forall j :: 0 <= j < |v| && j != c && Deflate(f, v, c)[j] == 0 ==> v[j] == 0
  {
    forall j | 0 <= j < |v|
      ensures Deflate(f, v, c)[j] < f.size
      ensures j == c || v[j] == 0 ==> Deflate(f, v, c)[j] == 0
      ensures j != c && Deflate(f, v, c)[j] == 0 ==> v[j] == 0
    {
      var d := f.add(j + 1, c + 1);
      Laws(f, j + 1, c + 1, 0);
      Laws(f, v[j], d, 0);
      Zero(f, v[j]);
      Zero(f, d);
      Zero(f, j + 1);
      if j != c && f.mul(v[j], d) == 0 {
        if d == 0 { AddCancel(f, j + 1, c + 1); }
        NoZeroDivisors(f, d, v[j]);
      }
    }
  }

  /** A vector with at most h non-zero entries that satisfies h Vandermonde equations is zero. */
  lemma {:induction false} VandermondeKernel(f: Field, h: nat, v: Vec, s: set<nat>)
    requires IsField(f) && |v| < f.size && VecIn(f, v, |v|) && SupportIn(v, s) && |s| <= h
    requires forall i :: 0 <= i < h ==> Dot(f, VRow(f, i, |v|), v, |v|) == 0
    ensures IsZero(v)
    decreases |s|
  {
    if c :| 0 <= c < |v| && v[c] != 0 {
      var w, n := Deflate(f, v, c), |v|;
      DeflateIn(f, v, c, s);
      forall i | 0 <= i < h - 1 ensures Dot(f, VRow(f, i, n), w, n) == 0 {
        DeflateDot(f, i, v, c);
        Zero(f, c + 1);
        Zero(f, 0);
      }
      VandermondeKernel(f, h - 1, w, s - {c});
      VRowIn(f, 0, n);
      DotSingle(f, VRow(f, 0, n), v, n, c);
      Zero(f, v[c]);
    }
  }

  // ---------- Systematic form ----------

  function Weights(f: Field, h: nat, n: nat): (w: Matrix)
    requires h <= n
    ensures Shaped(w, n) && |w| == h
  {
    Solve(f, Vandermonde(f, h, n), n)
  }

  ghost function Interval(lo: nat, hi: nat): (s: set<nat>)
    requires lo <= hi
    ensures |s| == hi - lo && forall x :: x in s <==> lo <= x < hi
    decreases hi - lo
  {
    if lo == hi then {} else Interval(lo, hi - 1) + {hi - 1}
  }

  lemma VandermondeIn(f: Field, h: nat, n: nat)
    requires IsField(f) && h <= n < f.size
    ensures MatrixIn(f, Vandermonde(f, h, n), h, n)
  {
    forall i | 0 <= i < h ensures VecIn(f, Vandermonde(f, h, n)[i], n) { VRowIn(f, i, n); }
  }

  lemma VandermondeLeading(f: Field, h: nat, n: nat)
    requires IsField(f) && h <= n < f.size
    ensures LeadingNonsingular(f, Vandermonde(f, h, n), n)
  {
    var a := Vandermonde(f, h, n);
    forall r: nat, v: Vec | r <= h && VecIn(f, v, n) && Leftmost(v, r) && Solves(f, a, r, v)
      ensures IsZero(v)
    {
      assert SupportIn(v, Interval(n - r, n));
      forall i | 0 <= i < r ensures Dot(f, VRow(f, i, n), v, n) == 0 { assert a[i] == VRow(f, i, n); }
      VandermondeKernel(f, r, v, Interval(n - r, n));
    }
  }

  /** The weights start with the identity on the parity columns. */
  lemma WeightsReduced(f: Field, h: nat, n: nat)
    requires IsField(f) && h <= n < f.size
    ensures MatrixIn(f, Weights(f, h, n), h, n) && Reduced(Weights(f, h, n), n)
  {
    VandermondeIn(f, h, n);
    VandermondeLeading(f, h, n);
    SolveReduced(f, Vandermonde(f, h, n), h, n);
  }

  /** A codeword has more than h non-zero symbols, or none. */
  lemma CodewordWeight(f: Field, h: nat, n: nat, v: Vec, s: set<nat>)
    requires IsField(f) && h <= n < f.size && VecIn(f, v, n) && SupportIn(v, s) && |s| <= h
    requires Solves(f, Weights(f, h, n), h, v)
    ensures IsZero(v)
  {
    var a := Vandermonde(f, h, n);
    VandermondeIn(f, h, n);
    VandermondeLeading(f, h, n);
    SolveSolves(f, a, h, v);
    forall i | 0 <= i < h ensures Dot(f, VRow(f, i, n), v, n) == 0 { assert a[i] == VRow(f, i, n); }
    VandermondeKernel(f, h, v, s);
  }

  // ---------- Every square submatrix of the data columns is non-singular ----------

  /** The parity symbols that complete data vector c to a codeword. */
  function ParityPart(f: Field, w: Matrix, c: Vec): Vec
    requires Shaped(w, |c|)
  {
    seq<nat>(|c|, j requires 0 <= j < |c| => if j < |c| - |w| then 0 else Dot(f, w[|c| - 1 - j], c, |c|))
  }

  lemma Completed(f: Field, w: Matrix, h: nat, c: Vec)
    requires IsField(f) && MatrixIn(f, w, h, |c|) && h <= |c| && Reduced(w, |c|) && VecIn(f, c, |c|)
    ensures VecIn(f, ParityPart(f, w, c), |c|) && VecIn(f, Sum(f, c, ParityPart(f, w, c)), |c|)
    ensures Solves(f, w, h, Sum(f, c, ParityPart(f, w, c)))
  {
    var p, n := ParityPart(f, w, c), |c|;
    forall j | 0 <= j < n ensures p[j] < f.size {
      if j >= n - h { DotIn(f, w[n - 1 - j], c, n); }
    }
    SumIn(f, c, p, n);
    forall i | 0 <= i < h ensures Dot(f, w[i], Sum(f, c, p), n) == 0 {
      DotSumRight(f, w[i], c, p, n);
      forall j | 0 <= j < n && j != n - 1 - i ensures w[i][j] == 0 || p[j] == 0 {
        if j >= n - h { assert Entry(w, n, i, n - 1 - j) == 0; }
      }
      DotSingle(f, w[i], p, n, n - 1 - i);
      assert Entry(w, n, i, i) == 1;
      DotIn(f, w[i], c, n);
      Zero(f, Dot(f, w[i], c, n));
    }
  }

  /**
   * Data columns q and parity columns p with |q| <= |p|: a data vector on q that satisfies the
   * equations of p is zero. This is the non-singularity of every square submatrix.
   */
  lemma DataKernel(f: Field, h: nat, n: nat, c: Vec, q: set<nat>, p: set<nat>)
    requires IsField(f) && h <= n < f.size && VecIn(f, c, n) && SupportIn(c, q)
    requires (forall x :: x in q ==> x < n - h) && p <= Interval(n - h, n) && |q| <= |p|
    requires forall j :: j in p ==> Dot(f, Weights(f, h, n)[n - 1 - j], c, n) == 0
    ensures IsZero(c)
  {
    var w := Weights(f, h, n);
    WeightsReduced(f, h, n);
    Completed(f, w, h, c);
    var e := Sum(f, c, ParityPart(f, w, c));
    var s := q + (Interval(n - h, n) - p);
    forall j | 0 <= j < n ensures (e[j] != 0 ==> j in s) && (j < n - h ==> e[j] == c[j]) {
      Zero(f, c[j]);
      Zero(f, 0);
    }
    assert |s| <= h by {
      assert |Interval(n - h, n) - p| == h - |p|;
      assert |s| == |q| + |Interval(n - h, n) - p| - |q * (Interval(n - h, n) - p)|;
    }
    CodewordWeight(f, h, n, e, s);
    forall j | 0 <= j < n ensures c[j] == 0 { if j >= n - h { assert j !in q; } }
  }

  // ---------- The decoder's equations ----------

  function Reversed(s: seq<nat>): seq<nat> {
    seq<nat>(|s|, z requires 0 <= z < |s| => s[|s| - 1 - z])
  }

  /** The column lists a decoder call works with: wanted data columns and as many parity columns. */
  predicate Selection(h: nat, n: nat, want: seq<nat>, pari: seq<nat>) {
    && h <= n && |want| == |pari| && Distinct(want) && Distinct(pari)
    && (forall i :: 0 <= i < |want| ==> want[i] < n - h)
    && (forall i :: 0 <= i < |pari| ==> n - h <= pari[i] < n)
  }

  predicate InBounds(h: nat, n: nat, want: seq<nat>, pari: seq<nat>) {
    && h <= n && |want| == |pari|
    && (forall i :: 0 <= i < |want| ==> want[i] < n)
    && (forall i :: 0 <= i < |pari| ==> n - h <= pari[i] < n)
  }

  /** code_equations_generate: the constant at index 0, wanted column j at index |want| - j. */
  function Equations(w: Matrix, n: nat, want: seq<nat>, pari: seq<nat>, d: Vec): (a: Matrix)
    requires Shaped(w, n) && InBounds(|w|, n, want, pari) && |d| == |want|
    ensures Shaped(a, |want| + 1) && |a| == |want|
  {
    seq<Vec>(|want|, i requires 0 <= i < |want| => [d[i]] + Gather(w[n - 1 - pari[i]], Reversed(want)))
  }

  ghost function SetOf(s: seq<nat>, k: nat): set<nat>
    requires k <= |s|
  {
    set i | 0 <= i < k :: s[i]
  }

  lemma {:induction false} SetOfSize(s: seq<nat>, k: nat)
    requires Distinct(s) && k <= |s|
    ensures |SetOf(s, k)| == k
  {
    if k == 0 {
      assert SetOf(s, 0) == {};
    } else {
      SetOfSize(s, k - 1);
      assert SetOf(s, k) == SetOf(s, k - 1) + {s[k - 1]};
    }
  }

  /** c holds x[i] at column cs[i] and is zero elsewhere. */
  ghost predicate Spreads(c: Vec, cs: seq<nat>, x: Vec) {
    && |cs| == |x| && (forall i :: 0 <= i < |cs| ==> cs[i] < |c| && c[cs[i]] == x[i])
    && forall j :: 0 <= j < |c| && c[j] != 0 ==> j in cs
  }

  lemma {:induction false} Spread(n: nat, cs: seq<nat>, x: Vec) returns (c: Vec)
    requires |cs| == |x| && Distinct(cs) && forall i :: 0 <= i < |cs| ==> cs[i] < n
    ensures |c| == n && Spreads(c, cs, x) && forall j :: 0 <= j < n ==> c[j] == 0 || c[j] in x
  {
    if cs == [] {
      c := seq<nat>(n, _ => 0);
    } else {
      var l := |cs| - 1;
      c := Spread(n, cs[..l], x[..l]);
      c := c[cs[l] := x[l]];
      assert cs == cs[..l] + [cs[l]] && x == x[..l] + [x[l]];
    }
  }

  lemma ReversedDistinct(s: seq<nat>)
    requires Distinct(s)
    ensures Distinct(Reversed(s)) && forall x :: x in Reversed(s) <==> x in s
  {
    assert forall i :: 0 <= i < |s| ==> s[i] == Reversed(s)[|s| - 1 - i];
  }

  /** The inner product of an equation with a constant and a candidate for the wanted symbols. */
  lemma EquationDot(f: Field, r: Vec, want: seq<nat>, d: nat, v: Vec, c: Vec)
    requires IsField(f) && VecIn(f, r, |c|) && VecIn(f, c, |c|) && Distinct(want)
    requires |v| == |want| + 1 && VecIn(f, v, |v|) && d < f.size && Spreads(c, Reversed(want), v[1..])
    ensures Dot(f, [d] + Gather(r, Reversed(want)), v, |v|) == f.add(f.mul(d, v[0]), Dot(f, r, c, |c|))
  {
    var rw, n := Reversed(want), |want|;
    var a := [d] + Gather(r, rw);
    ReversedDistinct(want);
    DotTail(f, a, v, n);
    assert a[1..] == Gather(r, rw);
    assert rw[..n] == rw;
    DotGather(f, r, c, rw, n);
    assert Gather(c, rw) == v[1..];
  }

  lemma EquationsIn(f: Field, w: Matrix, h: nat, n: nat, want: seq<nat>, pari: seq<nat>, d: Vec)
    requires MatrixIn(f, w, h, n) && InBounds(h, n, want, pari) && VecIn(f, d, |want|)
    ensures MatrixIn(f, Equations(w, n, want, pari, d), |want|, |want| + 1)
  {
  }

  /** No pivot vanishes when the decoder solves its equations, whatever the constants. */
  lemma EquationsLeading(f: Field, h: nat, n: nat, want: seq<nat>, pari: seq<nat>, d: Vec)
    requires IsField(f) && n < f.size && Selection(h, n, want, pari) && VecIn(f, d, |want|)
    ensures LeadingNonsingular(f, Equations(Weights(f, h, n), n, want, pari, d), |want| + 1)
  {
    var w, m := Weights(f, h, n), |want|;
    var a := Equations(w, n, want, pari, d);
    WeightsReduced(f, h, n);
    forall s: nat, v: Vec | s <= m && VecIn(f, v, m + 1) && Leftmost(v, s) && Solves(f, a, s, v)
      ensures IsZero(v)
    {
      LeadingKernel(f, h, n, want, pari, d, s, v);
    }
  }

  lemma SpreadRow(f: Field, w: Matrix, h: nat, n: nat, want: seq<nat>, pari: seq<nat>, d: Vec, s: nat, v: Vec, c: Vec, i: nat)
    requires IsField(f) && MatrixIn(f, w, h, n) && Selection(h, n, want, pari) && VecIn(f, d, |want|)
    requires i < s <= |want| && VecIn(f, v, |want| + 1) && Leftmost(v, s)
    requires Solves(f, Equations(w, n, want, pari, d), s, v)
    requires VecIn(f, c, n) && Spreads(c, Reversed(want), v[1..])
    ensures Dot(f, w[n - 1 - pari[i]], c, n) == 0
  {
    var row := w[n - 1 - pari[i]];
    EquationDot(f, row, want, d[i], v, c);
    EquationRow(w, n, want, pari, d, i);
    Zero(f, d[i]);
    DotIn(f, row, c, n);
    Zero(f, Dot(f, row, c, n));
  }

  lemma SpreadRows(f: Field, w: Matrix, h: nat, n: nat, want: seq<nat>, pari: seq<nat>, d: Vec, s: nat, v: Vec, c: Vec)
    requires IsField(f) && MatrixIn(f, w, h, n) && Selection(h, n, want, pari) && VecIn(f, d, |want|)
    requires s <= |want| && VecIn(f, v, |want| + 1) && Leftmost(v, s)
    requires Solves(f, Equations(w, n, want, pari, d), s, v)
    requires VecIn(f, c, n) && Spreads(c, Reversed(want), v[1..])
    ensures forall j :: j in SetOf(pari, s) ==> Dot(f, w[n - 1 - j], c, n) == 0
  {
    forall j | j in SetOf(pari, s) ensures Dot(f, w[n - 1 - j], c, n) == 0 {
      var i :| 0 <= i < s && pari[i] == j;
      SpreadRow(f, w, h, n, want, pari, d, s, v, c, i);
    }
  }

  lemma EquationRow(w: Matrix, n: nat, want: seq<nat>, pari: seq<nat>, d: Vec, i: nat)
    requires Shaped(w, n) && InBounds(|w|, n, want, pari) && |d| == |want| && i < |want|
    ensures Equations(w, n, want, pari, d)[i] == [d[i]] + Gather(w[n - 1 - pari[i]], Reversed(want))
  {
  }

  lemma SpreadVec(f: Field, v: Vec, c: Vec)
    requires IsField(f) && |v| > 0 && VecIn(f, v, |v|) && forall j :: 0 <= j < |c| ==> c[j] == 0 || c[j] in v[1..]
    ensures VecIn(f, c, |c|)
  {
    forall j | 0 <= j < |c| ensures c[j] < f.size {
      if c[j] != 0 {
        var i :| 0 <= i < |v[1..]| && v[1..][i] == c[j];
        assert v[i + 1] < f.size;
      }
    }
  }

  lemma SpreadSupport(want: seq<nat>, s: nat, v: Vec, c: Vec)
    requires s <= |want| && |v| == |want| + 1 && Leftmost(v, s) && Spreads(c, Reversed(want), v[1..])
    ensures SupportIn(c, SetOf(want, s)) && (IsZero(c) ==> IsZero(v))
  {
    var m, rw := |want|, Reversed(want);
    forall j | 0 <= j < |c| && c[j] != 0 ensures j in SetOf(want, s) {
      var z :| 0 <= z < m && rw[z] == j;
      assert v[1..][z] == v[z + 1];
      assert want[m - 1 - z] == j;
    }
    if IsZero(c) {
      forall z | 1 <= z < m + 1 ensures v[z] == 0 { assert c[rw[z - 1]] == v[1..][z - 1]; }
    }
  }

  /** A kernel vector of the first s equations, read as a data vector on the first s wanted columns. */
  lemma SpreadKernel(f: Field, w: Matrix, h: nat, n: nat, want: seq<nat>, pari: seq<nat>, d: Vec, s: nat, v: Vec)
    returns (c: Vec)
    requires IsField(f) && MatrixIn(f, w, h, n) && Selection(h, n, want, pari) && VecIn(f, d, |want|)
    requires s <= |want| && VecIn(f, v, |want| + 1) && Leftmost(v, s)
    requires Solves(f, Equations(w, n, want, pari, d), s, v)
    ensures VecIn(f, c, n) && SupportIn(c, SetOf(want, s)) && (IsZero(c) ==> IsZero(v))
    ensures forall j :: j in SetOf(pari, s) ==> Dot(f, w[n - 1 - j], c, n) == 0
  {
    ReversedDistinct(want);
    assert forall i :: 0 <= i < |want| ==> Reversed(want)[i] < n;
    c := Spread(n, Reversed(want), v[1..]);
    SpreadVec(f, v, c);
    SpreadRows(f, w, h, n, want, pari, d, s, v, c);
    SpreadSupport(want, s, v, c);
  }

  lemma LeadingKernel(f: Field, h: nat, n: nat, want: seq<nat>, pari: seq<nat>, d: Vec, s: nat, v: Vec)
    requires IsField(f) && n < f.size && Selection(h, n, want, pari) && VecIn(f, d, |want|)
    requires s <= |want| && VecIn(f, v, |want| + 1) && Leftmost(v, s)
    requires Solves(f, Equations(Weights(f, h, n), n, want, pari, d), s, v)
    ensures IsZero(v)
  {
    WeightsReduced(f, h, n);
    var c := SpreadKernel(f, Weights(f, h, n), h, n, want, pari, d, s, v);
    SetOfSize(want, s);
    SetOfSize(pari, s);
    DataKernel(f, h, n, c, SetOf(want, s), SetOf(pari, s));
  }

  /** The symbols of t with the listed columns blanked. */
  function Blank(t: Vec, cs: seq<nat>): Vec {
    seq<nat>(|t|, j requires 0 <= j < |t| => if j in cs then 0 else t[j])
  }

  /** What the coder relies on: systematic weights whose decoding equations are always solvable. */
  ghost predicate IsWeights(f: Field, w: Matrix, h: nat, n: nat) {
    && h <= n && MatrixIn(f, w, h, n) && Shaped(w, n) && Reduced(w, n)
    && forall want: seq<nat>, pari: seq<nat>, d: Vec {:trigger Equations(w, n, want, pari, d)} ::
         Selection(h, n, want, pari) && VecIn(f, d, |want|) ==>
         LeadingNonsingular(f, Equations(w, n, want, pari, d), |want| + 1)
  }

  lemma WeightsGood(f: Field, h: nat, n: nat)
    requires IsField(f) && h <= n < f.size
    ensures IsWeights(f, Weights(f, h, n), h, n)
  {
    WeightsReduced(f, h, n);
    forall want: seq<nat>, pari: seq<nat>, d: Vec | Selection(h, n, want, pari) && VecIn(f, d, |want|)
      ensures LeadingNonsingular(f, Equations(Weights(f, h, n), n, want, pari, d), |want| + 1)
    {
      EquationsLeading(f, h, n, want, pari, d);
    }
  }

  /**
   * Decoding one symbol position: if word t satisfies the selected parity equations and the
   * constants are computed from its other symbols, solving yields the wanted symbols of t.
   */
  lemma Recovered(f: Field, w: Matrix, h: nat, want: seq<nat>, pari: seq<nat>, d: Vec, t: Vec, i: nat)
    requires IsField(f) && IsWeights(f, w, h, |t|) && Selection(h, |t|, want, pari)
    requires |d| == |want| && VecIn(f, t, |t|) && i < |want|
    requires forall j :: 0 <= j < |want| ==> Dot(f, w[|t| - 1 - pari[j]], t, |t|) == 0
    requires forall j :: 0 <= j < |want| ==> d[j] == Dot(f, w[|t| - 1 - pari[j]], Blank(t, want), |t|)
    ensures Solve(f, Equations(w, |t|, want, pari, d), |want| + 1)[i][0] == t[want[i]]
  {
    ConstantsIn(f, w, h, want, pari, d, t);
    var a, m := Equations(w, |t|, want, pari, d), |want|;
    EquationsIn(f, w, h, |t|, want, pari, d);
    var v := [1] + Gather(t, Reversed(want));
    WantedVec(f, t, want, v, i);
    TrueSolution(f, w, h, want, pari, d, t);
    SolvedConstants(f, a, m, v, i);
  }

  lemma WantedVec(f: Field, t: Vec, want: seq<nat>, v: Vec, i: nat)
    requires IsField(f) && VecIn(f, t, |t|) && i < |want| && forall j :: 0 <= j < |want| ==> want[j] < |t|
    requires v == [1] + Gather(t, Reversed(want))
    ensures VecIn(f, v, |want| + 1) && v[0] == 1 && v[|want| - i] == t[want[i]]
  {
    var rw := Reversed(want);
    assert rw[|want| - 1 - i] == want[i];
    assert v[|want| - i] == Gather(t, rw)[|want| - 1 - i];
  }

  lemma SolvedConstants(f: Field, a: Matrix, m: nat, v: Vec, i: nat)
    requires IsField(f) && MatrixIn(f, a, m, m + 1) && LeadingNonsingular(f, a, m + 1)
    requires VecIn(f, v, m + 1) && v[0] == 1 && Solves(f, a, m, v) && i < m
    ensures Solve(f, a, m + 1)[i][0] == v[m - i]
  {
    SolveReduced(f, a, m, m + 1);
    SolveSolves(f, a, m, v);
    ReadOff(f, Solve(f, a, m + 1), m, v, i);
  }

  lemma ConstantsIn(f: Field, w: Matrix, h: nat, want: seq<nat>, pari: seq<nat>, d: Vec, t: Vec)
    requires IsField(f) && MatrixIn(f, w, h, |t|) && Selection(h, |t|, want, pari) && VecIn(f, t, |t|)
    requires |d| == |want|
    requires forall j :: 0 <= j < |want| ==> d[j] == Dot(f, w[|t| - 1 - pari[j]], Blank(t, want), |t|)
    ensures VecIn(f, d, |want|)
  {
    forall j | 0 <= j < |want| ensures d[j] < f.size { DotIn(f, w[|t| - 1 - pari[j]], Blank(t, want), |t|); }
  }

  /** The wanted symbols put back into the blanked ones. */
  lemma BlankAndSpread(f: Field, t: Vec, want: seq<nat>, v: Vec, c: Vec)
    requires IsField(f) && VecIn(f, t, |t|) && Distinct(want) && forall i :: 0 <= i < |want| ==> want[i] < |t|
    requires |v| == |want| + 1 && v[1..] == Gather(t, Reversed(want))
    requires |c| == |t| && VecIn(f, c, |t|) && Spreads(c, Reversed(want), v[1..])
    ensures Sum(f, Blank(t, want), c) == t
  {
    var rw, b := Reversed(want), Blank(t, want);
    ReversedDistinct(want);
    forall j | 0 <= j < |t| ensures f.add(b[j], c[j]) == t[j] {
      Zero(f, t[j]);
      if j in want {
        var z :| 0 <= z < |rw| && rw[z] == j;
        assert c[rw[z]] == v[1..][z] == t[j];
      }
    }
  }

  lemma TrueRow(f: Field, row: Vec, want: seq<nat>, d: nat, t: Vec, v: Vec, c: Vec)
    requires IsField(f) && VecIn(f, t, |t|) && VecIn(f, row, |t|) && Distinct(want)
    requires |v| == |want| + 1 && VecIn(f, v, |v|) && v[0] == 1 && d < f.size
    requires VecIn(f, c, |t|) && Spreads(c, Reversed(want), v[1..]) && Sum(f, Blank(t, want), c) == t
    requires Dot(f, row, t, |t|) == 0 && d == Dot(f, row, Blank(t, want), |t|)
    ensures Dot(f, [d] + Gather(row, Reversed(want)), v, |v|) == 0
  {
    EquationDot(f, row, want, d, v, c);
    DotSumRight(f, row, Blank(t, want), c, |t|);
    Zero(f, d);
  }

  lemma TrueSolution(f: Field, w: Matrix, h: nat, want: seq<nat>, pari: seq<nat>, d: Vec, t: Vec)
    requires IsField(f) && MatrixIn(f, w, h, |t|) && Selection(h, |t|, want, pari)
    requires VecIn(f, d, |want|) && VecIn(f, t, |t|)
    requires forall j :: 0 <= j < |want| ==> Dot(f, w[|t| - 1 - pari[j]], t, |t|) == 0
    requires forall j :: 0 <= j < |want| ==> d[j] == Dot(f, w[|t| - 1 - pari[j]], Blank(t, want), |t|)
    ensures Solves(f, Equations(w, |t|, want, pari, d), |want|, [1] + Gather(t, Reversed(want)))
  {
    var n, rw := |t|, Reversed(want);
    var v := [1] + Gather(t, rw);
    ReversedDistinct(want);
    var c := Spread(n, rw, v[1..]);
    BlankAndSpread(f, t, want, v, c);
    forall i | 0 <= i < |want|
      ensures Dot(f, Equations(w, n, want, pari, d)[i], v, |v|) == 0
    {
      TrueRow(f, w[n - 1 - pari[i]], want, d[i], t, v, c);
      EquationRow(w, n, want, pari, d, i);
    }
  }

  /** With the identity on the left, the constant column is the solution. */
  lemma ReadOff(f: Field, b: Matrix, m: nat, v: Vec, i: nat)
    requires IsField(f) && MatrixIn(f, b, m, m + 1) && Shaped(b, m + 1) && Reduced(b, m + 1)
    requires VecIn(f, v, m + 1) && v[0] == 1 && Solves(f, b, m, v) && i < m
    ensures b[i][0] == v[m - i]
  {
    forall j | 0 <= j < m + 1 && j != 0 && j != m - i ensures b[i][j] == 0 {
      assert Entry(b, m + 1, i, m - j) == 0;
    }
    assert Entry(b, m + 1, i, i) == 1;
    DotPair(f, b[i], v, m + 1, 0, m - i);
    Zero(f, b[i][0]);
    Zero(f, v[m - i]);
    AddCancel(f, b[i][0], v[m - i]);
  }
}
