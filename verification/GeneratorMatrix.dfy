/** The FPGA encoder's generator matrix: the data columns of the systematic weights. */
module GeneratorMatrix {
  import opened GfTables
  import opened Algebra
  import opened Elimination
  import opened ErasureCode
  import opened MatrixSolver
  import opened RseCoder

  /** The columns of the data packets. */
  function DataColumns(w: Matrix, k: nat): (r: Matrix)
    requires forall i :: 0 <= i < |w| ==> k <= |w[i]|
    ensures |r| == |w| && forall i :: 0 <= i < |r| ==> r[i] == w[i][..k]
  {
    seq<Vec>(|w|, i requires 0 <= i < |w| => w[i][..k])
  }

  lemma DataColumnsIn(f: Field, w: Matrix, n: nat, k: nat)
    requires MatrixIn(f, w, |w|, n) && k <= n
    ensures MatrixIn(f, DataColumns(w, k), |w|, k)
  {
    forall i | 0 <= i < |w| ensures VecIn(f, DataColumns(w, k)[i], k) { assert VecIn(f, w[i], n); }
  }

  /** The rows as the closing pass writes them: every row is divided by its diagonal entry. */
  function Divided(f: Field, b: Matrix, cols: nat, i: nat): Vec
    requires Shaped(b, cols) && i < |b|
  {
    Scale(f, b[i], f.inv(b[i][cols - 1 - i]))
  }

  lemma InverseOfOne(f: Field)
    requires IsField(f)
    ensures f.inv(1) == 1
  {
    Laws(f, 1, 0, 0);
    Laws(f, 1, f.inv(1), 0);
    Zero(f, f.inv(1));
  }

  lemma ScaleByOne(f: Field, r: Vec)
    requires IsField(f) && VecIn(f, r, |r|)
    ensures Scale(f, r, 1) == r
  {
    forall j | 0 <= j < |r| ensures f.mul(r[j], 1) == r[j] {
      Laws(f, r[j], 1, 0);
      Zero(f, r[j]);
    }
  }

  /** Dividing the bottom row too changes nothing, because its diagonal entry is already 1. */
  lemma DividedIsFinish(f: Field, b: Matrix, rows: nat, cols: nat, i: nat)
    requires IsField(f) && Diagonal(f, b, rows, cols) && i < rows
    ensures Divided(f, b, cols, i) == Finish(f, b, cols)[i]
  {
    if i == rows - 1 {
      assert Entry(b, cols, i, i) == 1;
      InverseOfOne(f);
      ScaleByOne(f, b[i]);
    }
  }

  /** One row of the generator, from the last data column to the first. */
  method GeneratorRow(t: Tables, ghost f: Field, p: array2<nat>, i: nat, k: nat, ghost b: Matrix) returns (row: Vec)
    requires Computes(t, f) && i < p.Length0 <= p.Length1 && k <= p.Length1
    requires MatrixIn(f, b, p.Length0, p.Length1) && Row(p, i, p.Length1) == b[i]
    ensures row == Divided(f, b, p.Length1, i)[..k]
  {
    var n := p.Length1;
    assert Row(p, i, n)[n - 1 - i] == p[i, n - 1 - i];
    var inv := Invert(t, f, p[i, n - 1 - i]);
    row := [];
    var j: nat := k;
    while j > 0
      invariant j <= k && row == Divided(f, b, n, i)[j..k]
    {
      j := j - 1;
      assert Row(p, i, n)[j] == p[i, j];
      var x := Multiply(t, f, p[i, j], inv);
      row := [x] + row;
    }
  }

  lemma WeightsDiagonal(f: Field, h: nat, n: nat)
    requires IsField(f) && h <= n < f.size
    ensures MatrixIn(f, Vandermonde(f, h, n), h, n) && Shaped(Vandermonde(f, h, n), n)
    ensures Diagonal(f, Steps(f, Vandermonde(f, h, n), n, h), h, n)
    ensures Finish(f, Steps(f, Vandermonde(f, h, n), n, h), n) == Weights(f, h, n)
  {
    VandermondeIn(f, h, n);
    VandermondeLeading(f, h, n);
    StepsDiagonal(f, Vandermonde(f, h, n), h, n);
  }

  /** The matrix of powers after the rounds of elimination. */
  method Eliminated(t: Tables, ghost f: Field, h: nat, n: nat) returns (p: array2<nat>, ghost b: Matrix)
    requires Computes(t, f) && h <= n < f.size
    ensures fresh(p) && p.Length0 == h && p.Length1 == n && Snap(p, h, n) == b && Computes(t, f)
    ensures Diagonal(f, b, h, n) && Finish(f, b, n) == Weights(f, h, n)
  {
    p := new nat[h, n]((i, j) => 0);
    FillPowers(t, f, p);
    WeightsDiagonal(f, h, n);
    SolveRounds(t, f, p, h, n);
    b := Snap(p, h, n);
  }

  /** The closing pass: all rows of the generator from the eliminated matrix. */
  method GeneratorRows(t: Tables, ghost f: Field, p: array2<nat>, k: nat, ghost b: Matrix) returns (gen: Matrix)
    requires Computes(t, f) && p.Length0 <= p.Length1 && k <= p.Length1
    requires Diagonal(f, b, p.Length0, p.Length1) && Snap(p, p.Length0, p.Length1) == b
    ensures gen == DataColumns(Finish(f, b, p.Length1), k)
  {
    var h, n := p.Length0, p.Length1;
    gen := [];
    for i := 0 to h
      invariant |gen| == i && forall r :: 0 <= r < i ==> gen[r] == Finish(f, b, n)[r][..k]
    {
      assert Snap(p, h, n)[i] == Row(p, i, n);
      DividedIsFinish(f, b, h, n, i);
      var row := GeneratorRow(t, f, p, i, k, b);
      gen := gen + [row];
    }
  }

  lemma GeneratorIn(f: Field, h: nat, k: nat)
    requires IsField(f) && h + k < f.size
    ensures MatrixIn(f, DataColumns(Weights(f, h, h + k), k), h, k)
  {
    WeightsReduced(f, h, h + k);
    DataColumnsIn(f, Weights(f, h, h + k), h + k, k);
  }

  /** Generate_generator: for every h and k, exactly the data columns that the batch coder's weights have. */
  method GenerateGenerator(t: Tables, ghost f: Field, h: nat, k: nat) returns (gen: Matrix)
    requires Computes(t, f) && h + k < f.size
    ensures gen == DataColumns(Weights(f, h, h + k), k) && MatrixIn(f, gen, h, k)
  {
    GeneratorIn(f, h, k);
    var n := h + k;
    var p: array2<nat>;
    ghost var b;
    p, b := Eliminated(t, f, h, n);
    gen := GeneratorRows(t, f, p, k, b);
  }
}
