/**
 * Gauss-Jordan elimination without pivoting, as matrix_solve and Generate_generator run it.
 * Columns are counted from the left: column k is stored at index cols - 1 - k.
 */
module Elimination {
  import opened Algebra

  // ---------- The algorithm, one row operation at a time ----------

  function NormalizeRow(f: Field, r: Vec, c: nat): Vec
    requires c < |r|
  {
    if r[c] != 0 then Scale(f, r, f.inv(r[c])) else r
  }

  function Normalize(f: Field, a: Matrix, c: nat): Matrix
    requires forall i :: 0 <= i < |a| ==> c < |a[i]|
  {
    seq<Vec>(|a|, i requires 0 <= i < |a| => NormalizeRow(f, a[i], c))
  }

  function EliminateRow(f: Field, r: Vec, pivot: Vec, c: nat): Vec
    requires c < |r| == |pivot|
  {
    if r[c] != 0 then Sum(f, r, pivot) else r
  }

  function Eliminate(f: Field, a: Matrix, k: nat, c: nat): Matrix
    requires k < |a| && forall i :: 0 <= i < |a| ==> c < |a[i]| == |a[k]|
  {
    seq<Vec>(|a|, i requires 0 <= i < |a| => if i == k then a[k] else EliminateRow(f, a[i], a[k], c))
  }

  predicate Shaped(a: Matrix, cols: nat) {
    |a| <= cols && forall i :: 0 <= i < |a| ==> |a[i]| == cols
  }

  function Step(f: Field, a: Matrix, cols: nat, k: nat): (b: Matrix)
    requires Shaped(a, cols) && k < |a|
    ensures Shaped(b, cols) && |b| == |a|
  {
    Eliminate(f, Normalize(f, a, cols - 1 - k), k, cols - 1 - k)
  }

  /** The matrix after the first k rounds. */
  function Steps(f: Field, a: Matrix, cols: nat, k: nat): (b: Matrix)
    requires Shaped(a, cols) && k <= |a|
    ensures Shaped(b, cols) && |b| == |a|
  {
    if k == 0 then a else Step(f, Steps(f, a, cols, k - 1), cols, k - 1)
  }

  lemma StepsNext(f: Field, a: Matrix, cols: nat, k: nat)
    requires Shaped(a, cols) && k < |a|
    ensures Steps(f, a, cols, k + 1) == Step(f, Steps(f, a, cols, k), cols, k)
  {
  }

  /** The closing pass that makes the diagonal 1; the bottom row needs none. */
  function Finish(f: Field, a: Matrix, cols: nat): (b: Matrix)
    requires Shaped(a, cols)
    ensures Shaped(b, cols) && |b| == |a|
  {
    seq<Vec>(|a|, i requires 0 <= i < |a| =>
      if i < |a| - 1 then Scale(f, a[i], f.inv(a[i][cols - 1 - i])) else a[i])
  }

  function Solve(f: Field, a: Matrix, cols: nat): (b: Matrix)
    requires Shaped(a, cols)
    ensures Shaped(b, cols) && |b| == |a|
  {
    Finish(f, Steps(f, a, cols, |a|), cols)
  }

  /** The entry of row i at column j from the left. */
  function Entry(a: Matrix, cols: nat, i: nat, j: nat): nat
    requires Shaped(a, cols) && i < |a| && j < cols
  {
    a[i][cols - 1 - j]
  }

  // ---------- What is assumed of the matrix and what elimination reaches ----------

  ghost predicate IsZero(v: Vec) { forall j :: 0 <= j < |v| ==> v[j] == 0 }

  /** v is zero outside the leftmost r columns. */
  ghost predicate Leftmost(v: Vec, r: nat) { forall j :: 0 <= j < |v| - r ==> v[j] == 0 }

  /** Every leading square block has a trivial kernel, so no leading minor vanishes. */
  ghost predicate LeadingNonsingular(f: Field, a: Matrix, cols: nat)
    requires Shaped(a, cols)
  {
    forall r: nat, v: Vec {:trigger Leftmost(v, r), Solves(f, a, r, v)} ::
      r <= |a| && VecIn(f, v, cols) && Leftmost(v, r) && Solves(f, a, r, v) ==> IsZero(v)
  }

  /** The leftmost k columns are diagonal with a non-zero diagonal. */
  ghost predicate Cleared(a: Matrix, cols: nat, k: nat)
    requires Shaped(a, cols) && k <= |a|
  {
    forall i, j :: 0 <= i < |a| && 0 <= j < k ==> (Entry(a, cols, i, j) == 0 <==> i != j)
  }

  /** The leftmost block is the identity. */
  ghost predicate Reduced(a: Matrix, cols: nat)
    requires Shaped(a, cols)
  {
    forall i, j :: 0 <= i < |a| && 0 <= j < |a| ==> Entry(a, cols, i, j) == if i == j then 1 else 0
  }

  // ---------- Row operations keep the solution set ----------

  lemma ScaleIn(f: Field, r: Vec, c: nat, cols: nat)
    requires IsField(f) && VecIn(f, r, cols) && c < f.size
    ensures VecIn(f, Scale(f, r, c), cols)
    ensures c != 0 ==> forall j :: 0 <= j < cols ==> (Scale(f, r, c)[j] == 0 <==> r[j] == 0)
  {
    forall j | 0 <= j < cols
      ensures f.mul(r[j], c) < f.size && (c != 0 ==> (f.mul(r[j], c) == 0 <==> r[j] == 0))
    {
      Laws(f, r[j], c, 0);
      Zero(f, c);
      if c != 0 && f.mul(r[j], c) == 0 { NoZeroDivisors(f, c, r[j]); }
    }
  }

  lemma SumIn(f: Field, r: Vec, s: Vec, cols: nat)
    requires IsField(f) && VecIn(f, r, cols) && VecIn(f, s, cols)
    ensures VecIn(f, Sum(f, r, s), cols)
  {
    forall j | 0 <= j < cols ensures f.add(r[j], s[j]) < f.size { Laws(f, r[j], s[j], 0); }
  }

  lemma NormalizeIn(f: Field, a: Matrix, rows: nat, cols: nat, c: nat)
    requires IsField(f) && MatrixIn(f, a, rows, cols) && c < cols
    ensures MatrixIn(f, Normalize(f, a, c), rows, cols)
    ensures forall i, j :: 0 <= i < rows && 0 <= j < cols ==> (Normalize(f, a, c)[i][j] == 0 <==> a[i][j] == 0)
    ensures forall i :: 0 <= i < rows && a[i][c] != 0 ==> Normalize(f, a, c)[i][c] == 1
  {
    forall i | 0 <= i < rows
      ensures VecIn(f, NormalizeRow(f, a[i], c), cols)
      ensures forall j :: 0 <= j < cols ==> (NormalizeRow(f, a[i], c)[j] == 0 <==> a[i][j] == 0)
      ensures a[i][c] != 0 ==> NormalizeRow(f, a[i], c)[c] == 1
    {
      Laws(f, a[i][c], 0, 0);
      if a[i][c] != 0 { ScaleIn(f, a[i], f.inv(a[i][c]), cols); }
    }
  }

  lemma ScaleSolves(f: Field, r: Vec, c: nat, v: Vec)
    requires IsField(f) && VecIn(f, r, |v|) && VecIn(f, v, |v|) && 0 < c < f.size
    ensures Dot(f, Scale(f, r, c), v, |v|) == 0 <==> Dot(f, r, v, |v|) == 0
  {
    DotScale(f, r, c, v, |v|);
    DotIn(f, r, v, |v|);
    Zero(f, c);
    if f.mul(c, Dot(f, r, v, |v|)) == 0 { NoZeroDivisors(f, c, Dot(f, r, v, |v|)); }
  }

  lemma NormalizeSolves(f: Field, a: Matrix, rows: nat, c: nat, r: nat, v: Vec)
    requires IsField(f) && MatrixIn(f, a, rows, |v|) && VecIn(f, v, |v|) && c < |v| && r <= rows
    ensures Solves(f, Normalize(f, a, c), r, v) <==> Solves(f, a, r, v)
  {
    forall i | 0 <= i < rows
      ensures Dot(f, Normalize(f, a, c)[i], v, |v|) == 0 <==> Dot(f, a[i], v, |v|) == 0
    {
      Laws(f, a[i][c], 0, 0);
      if a[i][c] != 0 { ScaleSolves(f, a[i], f.inv(a[i][c]), v); }
    }
  }

  lemma EliminateSolves(f: Field, a: Matrix, rows: nat, k: nat, c: nat, r: nat, v: Vec)
    requires IsField(f) && MatrixIn(f, a, rows, |v|) && VecIn(f, v, |v|) && c < |v| && k < r <= rows
    ensures Solves(f, Eliminate(f, a, k, c), r, v) <==> Solves(f, a, r, v)
  {
    var b, n := Eliminate(f, a, k, c), |v|;
    forall i | 0 <= i < rows && Dot(f, a[k], v, n) == 0
      ensures Dot(f, b[i], v, n) == Dot(f, a[i], v, n)
    {
      DotSum(f, a[i], a[k], v, n);
      DotIn(f, a[i], v, n);
      Zero(f, Dot(f, a[i], v, n));
    }
    assert b[k] == a[k];
  }

  lemma EliminateIn(f: Field, a: Matrix, rows: nat, cols: nat, k: nat, c: nat)
    requires IsField(f) && MatrixIn(f, a, rows, cols) && c < cols && k < rows
    ensures MatrixIn(f, Eliminate(f, a, k, c), rows, cols)
  {
    forall i | 0 <= i < rows ensures VecIn(f, Eliminate(f, a, k, c)[i], cols) {
      SumIn(f, a[i], a[k], cols);
    }
  }

  lemma StepIn(f: Field, a: Matrix, rows: nat, cols: nat, k: nat)
    requires IsField(f) && MatrixIn(f, a, rows, cols) && k < rows <= cols
    ensures MatrixIn(f, Step(f, a, cols, k), rows, cols)
  {
    NormalizeIn(f, a, rows, cols, cols - 1 - k);
    EliminateIn(f, Normalize(f, a, cols - 1 - k), rows, cols, k, cols - 1 - k);
  }

  lemma {:induction false} StepsIn(f: Field, a: Matrix, rows: nat, cols: nat, k: nat)
    requires IsField(f) && MatrixIn(f, a, rows, cols) && k <= rows <= cols
    ensures MatrixIn(f, Steps(f, a, cols, k), rows, cols)
  {
    if k != 0 {
      StepsIn(f, a, rows, cols, k - 1);
      StepIn(f, Steps(f, a, cols, k - 1), rows, cols, k - 1);
    }
  }

  lemma StepSolves(f: Field, a: Matrix, rows: nat, k: nat, r: nat, v: Vec)
    requires IsField(f) && MatrixIn(f, a, rows, |v|) && VecIn(f, v, |v|) && k < r <= rows <= |v|
    ensures Solves(f, Step(f, a, |v|, k), r, v) <==> Solves(f, a, r, v)
  {
    var c := |v| - 1 - k;
    NormalizeSolves(f, a, rows, c, r, v);
    NormalizeIn(f, a, rows, |v|, c);
    EliminateSolves(f, Normalize(f, a, c), rows, k, c, r, v);
  }

  /** After k rounds the first r equations, for any r >= k, have the solutions they started with. */
  lemma {:induction false} StepsSolves(f: Field, a: Matrix, rows: nat, k: nat, r: nat, v: Vec)
    requires IsField(f) && MatrixIn(f, a, rows, |v|) && VecIn(f, v, |v|) && k <= r <= rows <= |v|
    ensures Solves(f, Steps(f, a, |v|, k), r, v) <==> Solves(f, a, r, v)
  {
    if k != 0 {
      var b := Steps(f, a, |v|, k - 1);
      StepsIn(f, a, rows, |v|, k - 1);
      StepsSolves(f, a, rows, k - 1, r, v);
      StepSolves(f, b, rows, k - 1, r, v);
    }
  }

  // ---------- No pivot is zero ----------

  /** v is 1 at column k and cancels that column in every row above k. */
  ghost predicate Cancels(f: Field, b: Matrix, cols: nat, k: nat, v: Vec)
    requires Shaped(b, cols) && k < |b|
  {
    && VecIn(f, v, cols) && Leftmost(v, k + 1) && v[cols - 1 - k] == 1
    && forall i :: 0 <= i < k ==> v[cols - 1 - i] == f.mul(Entry(b, cols, i, k), f.inv(Entry(b, cols, i, i)))
  }

  lemma CancellingVector(f: Field, b: Matrix, rows: nat, cols: nat, k: nat) returns (v: Vec)
    requires IsField(f) && MatrixIn(f, b, rows, cols) && k < rows <= cols && Cleared(b, cols, k)
    ensures Cancels(f, b, cols, k, v)
  {
    forall i | 0 <= i < k
      ensures f.mul(Entry(b, cols, i, k), f.inv(Entry(b, cols, i, i))) < f.size
    {
      Laws(f, Entry(b, cols, i, i), 0, 0);
      Laws(f, Entry(b, cols, i, k), f.inv(Entry(b, cols, i, i)), 0);
    }
    v := seq<nat>(cols, j requires 0 <= j < cols =>
      if j < cols - 1 - k then 0 else if j == cols - 1 - k then 1
      else f.mul(Entry(b, cols, cols - 1 - j, k), f.inv(Entry(b, cols, cols - 1 - j, cols - 1 - j))));
  }

  lemma CancelledRow(f: Field, b: Matrix, rows: nat, cols: nat, k: nat, v: Vec, i: nat)
    requires IsField(f) && MatrixIn(f, b, rows, cols) && i <= k < rows <= cols && Cleared(b, cols, k)
    requires Cancels(f, b, cols, k, v) && Entry(b, cols, k, k) == 0
    ensures Dot(f, b[i], v, cols) == 0
  {
    var c, d := cols - 1 - k, cols - 1 - i;
    forall j | 0 <= j < cols && j != c && j != d ensures b[i][j] == 0 || v[j] == 0 {
      if j > c { assert Entry(b, cols, i, cols - 1 - j) == b[i][j]; }
    }
    if i == k {
      DotZero(f, b[i], v, cols);
    } else {
      DotPair(f, b[i], v, cols, d, c);
      MulInverse(f, Entry(b, cols, i, i), Entry(b, cols, i, k));
    }
  }

  lemma MulInverse(f: Field, y: nat, x: nat)
    requires IsField(f) && x < f.size && 0 < y < f.size
    ensures f.add(f.mul(y, f.mul(x, f.inv(y))), f.mul(x, 1)) == 0
  {
    Laws(f, y, 0, 0);
    Laws(f, x, f.inv(y), y);
    Laws(f, f.inv(y), y, x);
    Laws(f, y, f.mul(x, f.inv(y)), 0);
    Zero(f, x);
  }

  lemma PivotNonzero(f: Field, a: Matrix, rows: nat, cols: nat, k: nat)
    requires IsField(f) && MatrixIn(f, a, rows, cols) && k < rows <= cols
    requires LeadingNonsingular(f, a, cols) && Cleared(Steps(f, a, cols, k), cols, k)
    ensures Entry(Steps(f, a, cols, k), cols, k, k) != 0
  {
    var b := Steps(f, a, cols, k);
    StepsIn(f, a, rows, cols, k);
    if Entry(b, cols, k, k) == 0 {
      var v := CancellingVector(f, b, rows, cols, k);
      forall i | 0 <= i < k + 1 ensures Dot(f, b[i], v, cols) == 0 {
        CancelledRow(f, b, rows, cols, k, v, i);
      }
      StepsSolves(f, a, rows, k, k + 1, v);
      assert Leftmost(v, k + 1) && Solves(f, a, k + 1, v);
    }
  }

  lemma EliminateCleared(f: Field, b: Matrix, rows: nat, cols: nat, k: nat)
    requires IsField(f) && MatrixIn(f, b, rows, cols) && k < rows <= cols && Cleared(b, cols, k)
    requires Entry(b, cols, k, k) == 1
    requires forall i :: 0 <= i < rows ==> Entry(b, cols, i, k) == 0 || Entry(b, cols, i, k) == 1
    ensures Cleared(Eliminate(f, b, k, cols - 1 - k), cols, k + 1)
    ensures Entry(Eliminate(f, b, k, cols - 1 - k), cols, k, k) == 1
  {
    var d := Eliminate(f, b, k, cols - 1 - k);
    forall i, j | 0 <= i < rows && 0 <= j < k + 1
      ensures Entry(d, cols, i, j) == 0 <==> i != j
    {
      var x, y := Entry(b, cols, i, j), Entry(b, cols, k, j);
      assert Entry(d, cols, i, j) == if i != k && Entry(b, cols, i, k) != 0 then f.add(x, y) else x;
      Zero(f, x);
    }
  }

  lemma NormalizeCleared(f: Field, a: Matrix, rows: nat, cols: nat, k: nat)
    requires IsField(f) && MatrixIn(f, a, rows, cols) && k < rows <= cols
    requires Cleared(a, cols, k) && Entry(a, cols, k, k) != 0
    ensures var b := Normalize(f, a, cols - 1 - k);
      && MatrixIn(f, b, rows, cols) && Cleared(b, cols, k) && Entry(b, cols, k, k) == 1
      && forall i :: 0 <= i < rows ==> Entry(b, cols, i, k) == 0 || Entry(b, cols, i, k) == 1
  {
    NormalizeIn(f, a, rows, cols, cols - 1 - k);
    var b := Normalize(f, a, cols - 1 - k);
    assert forall i, j :: 0 <= i < rows && 0 <= j < cols ==> (Entry(b, cols, i, j) == 0 <==> Entry(a, cols, i, j) == 0);
  }

  lemma StepCleared(f: Field, a: Matrix, rows: nat, cols: nat, k: nat)
    requires IsField(f) && MatrixIn(f, a, rows, cols) && k < rows <= cols
    requires Cleared(a, cols, k) && Entry(a, cols, k, k) != 0
    ensures Cleared(Step(f, a, cols, k), cols, k + 1)
    ensures Entry(Step(f, a, cols, k), cols, k, k) == 1
  {
    NormalizeCleared(f, a, rows, cols, k);
    EliminateCleared(f, Normalize(f, a, cols - 1 - k), rows, cols, k);
  }

  lemma {:induction false} StepsCleared(f: Field, a: Matrix, rows: nat, cols: nat, k: nat)
    requires IsField(f) && MatrixIn(f, a, rows, cols) && k <= rows <= cols
    requires LeadingNonsingular(f, a, cols)
    ensures Cleared(Steps(f, a, cols, k), cols, k)
    ensures k > 0 ==> Entry(Steps(f, a, cols, k), cols, k - 1, k - 1) == 1
  {
    if k != 0 {
      StepsCleared(f, a, rows, cols, k - 1);
      PivotNonzero(f, a, rows, cols, k - 1);
      StepsIn(f, a, rows, cols, k - 1);
      StepCleared(f, Steps(f, a, cols, k - 1), rows, cols, k - 1);
    }
  }

  // ---------- The closing pass ----------

  ghost predicate Diagonal(f: Field, b: Matrix, rows: nat, cols: nat) {
    && MatrixIn(f, b, rows, cols) && rows <= cols && Shaped(b, cols) && Cleared(b, cols, rows)
    && (rows > 0 ==> Entry(b, cols, rows - 1, rows - 1) == 1)
  }

  lemma FinishReduced(f: Field, b: Matrix, rows: nat, cols: nat)
    requires IsField(f) && Diagonal(f, b, rows, cols)
    ensures MatrixIn(f, Finish(f, b, cols), rows, cols) && Reduced(Finish(f, b, cols), cols)
  {
    var d := Finish(f, b, cols);
    forall i | 0 <= i < rows
      ensures VecIn(f, d[i], cols)
      ensures forall j :: 0 <= j < rows ==> Entry(d, cols, i, j) == if i == j then 1 else 0
    {
      var x := Entry(b, cols, i, i);
      Laws(f, x, 0, 0);
      if i < rows - 1 { ScaleIn(f, b[i], f.inv(x), cols); }
      forall j | 0 <= j < rows ensures Entry(d, cols, i, j) == if i == j then 1 else 0 {
        assert Entry(b, cols, i, j) == 0 <==> i != j;
      }
    }
  }

  lemma FinishSolves(f: Field, b: Matrix, rows: nat, v: Vec)
    requires IsField(f) && Diagonal(f, b, rows, |v|) && VecIn(f, v, |v|)
    ensures Solves(f, Finish(f, b, |v|), rows, v) <==> Solves(f, b, rows, v)
  {
    forall i | 0 <= i < rows
      ensures Dot(f, Finish(f, b, |v|)[i], v, |v|) == 0 <==> Dot(f, b[i], v, |v|) == 0
    {
      var x := Entry(b, |v|, i, i);
      Laws(f, x, 0, 0);
      if i < rows - 1 { ScaleSolves(f, b[i], f.inv(x), v); }
    }
  }

  lemma StepsDiagonal(f: Field, a: Matrix, rows: nat, cols: nat)
    requires IsField(f) && MatrixIn(f, a, rows, cols) && rows <= cols && LeadingNonsingular(f, a, cols)
    ensures Diagonal(f, Steps(f, a, cols, rows), rows, cols)
  {
    StepsIn(f, a, rows, cols, rows);
    StepsCleared(f, a, rows, cols, rows);
  }

  // ---------- The main results ----------

  /** Elimination ends with the identity in the leftmost block. */
  lemma SolveReduced(f: Field, a: Matrix, rows: nat, cols: nat)
    requires IsField(f) && MatrixIn(f, a, rows, cols) && rows <= cols && LeadingNonsingular(f, a, cols)
    ensures MatrixIn(f, Solve(f, a, cols), rows, cols) && Reduced(Solve(f, a, cols), cols)
  {
    StepsDiagonal(f, a, rows, cols);
    FinishReduced(f, Steps(f, a, cols, rows), rows, cols);
  }

  /** Elimination keeps the solution set. */
  lemma SolveSolves(f: Field, a: Matrix, rows: nat, v: Vec)
    requires IsField(f) && MatrixIn(f, a, rows, |v|) && VecIn(f, v, |v|) && rows <= |v|
    requires LeadingNonsingular(f, a, |v|)
    ensures Solves(f, Solve(f, a, |v|), rows, v) <==> Solves(f, a, rows, v)
  {
    StepsDiagonal(f, a, rows, |v|);
    StepsSolves(f, a, rows, rows, rows, v);
    FinishSolves(f, Steps(f, a, |v|, rows), rows, v);
  }
}
