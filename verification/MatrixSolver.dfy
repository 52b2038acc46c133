/** matrix_solve: Gauss-Jordan elimination in place on a table of symbols. */
module MatrixSolver {
  import opened Bits
  import opened GaloisField
  import opened GfTables
  import opened Algebra
  import opened Elimination

  /** The arithmetic of g as a field record. */
  ghost function FieldOf(g: GF): Field {
    Field(g.N(), (x: nat, y: nat) => Xor(x, y), (x: nat, y: nat) => g.Mul(x, y), (x: nat) => g.Inv(x))
  }

  lemma GaloisLaws(g: GF, x: nat, y: nat, z: nat)
    requires g.Primitive() && x < g.N() && y < g.N() && z < g.N()
    ensures LawsAt(FieldOf(g), x, y, z)
  {
    XorBound(g.m, x, y);
    MulBound(g, x, y);
    XorComm(x, y);
    XorAssoc(x, y, z);
    XorZero(x);
    XorSelf(x);
    MulComm(g, x, y);
    MulAssoc(g, x, y, z);
    MulComm(g, x, 1);
    MulOne(g, x);
    MulZero(g, x);
    MulAddLeft(g, x, y, z);
    if x != 0 { InvCorrect(g, x); }
  }

  /** GF(2^m) with a primitive modulus is a field. */
  lemma GaloisIsField(g: GF)
    requires g.Primitive()
    ensures IsField(FieldOf(g))
  {
    ExpBound(g, 0);
    forall x: nat, y: nat, z: nat | x < g.N() && y < g.N() && z < g.N()
      ensures LawsAt(FieldOf(g), x, y, z)
    {
      GaloisLaws(g, x, y, z);
    }
  }

  ghost predicate Computes(t: Tables, f: Field)
    reads t.exp, t.log, t.inv
  {
    t.Ready() && f == FieldOf(t.g) && IsField(f)
  }

  method Multiply(t: Tables, ghost f: Field, a: nat, b: nat) returns (r: nat)
    requires Computes(t, f) && a < f.size && b < f.size
    ensures r == f.mul(a, b) && r < f.size
  {
    r := t.Mult(a, b);
  }

  method Invert(t: Tables, ghost f: Field, a: nat) returns (r: nat)
    requires Computes(t, f) && a < f.size
    ensures r == f.inv(a) && r < f.size
  {
    r := t.inv[a];
    InvZero(t.g);
    if a != 0 { InvCorrect(t.g, a); }
  }

  method Add(t: Tables, ghost f: Field, a: nat, b: nat) returns (r: nat)
    requires Computes(t, f) && a < f.size && b < f.size
    ensures r == f.add(a, b) && r < f.size
  {
    r := Xor(a, b);
    XorBound(t.g.m, a, b);
  }

  // ---------- The table as a matrix ----------

  function Row(p: array2<nat>, i: nat, cols: nat): Vec
    requires i < p.Length0 && cols <= p.Length1
    reads p
  {
    seq<nat>(cols, j requires 0 <= j < cols reads p => p[i, j])
  }

  function Snap(p: array2<nat>, rows: nat, cols: nat): Matrix
    requires rows <= p.Length0 && cols <= p.Length1
    reads p
  {
    seq<Vec>(rows, i requires 0 <= i < rows reads p => Row(p, i, cols))
  }

  twostate predicate OnlyRow(p: array2<nat>, r: nat)
    reads p
  {
    forall i, j :: 0 <= i < p.Length0 && 0 <= j < p.Length1 && i != r ==> p[i, j] == old(p[i, j])
  }

  method ScaleRow(t: Tables, ghost f: Field, p: array2<nat>, i: nat, cols: nat, c: nat)
    requires Computes(t, f) && i < p.Length0 && cols <= p.Length1 && c < f.size
    requires VecIn(f, Row(p, i, cols), cols)
    modifies p
    ensures OnlyRow(p, i) && Row(p, i, cols) == Scale(f, old(Row(p, i, cols)), c)
    ensures forall j :: cols <= j < p.Length1 ==> p[i, j] == old(p[i, j])
  {
    ghost var r := Row(p, i, cols);
    var n: nat := cols;
    while n > 0
      invariant n <= cols
      invariant OnlyRow(p, i)
      invariant forall j :: 0 <= j < p.Length1 && (j < n || cols <= j) ==> p[i, j] == old(p[i, j])
      invariant forall j :: n <= j < cols ==> p[i, j] == f.mul(r[j], c)
    {
      n := n - 1;
      assert p[i, n] == r[n];
      p[i, n] := Multiply(t, f, p[i, n], c);
    }
  }

  method AddRow(t: Tables, ghost f: Field, p: array2<nat>, i: nat, k: nat, cols: nat)
    requires Computes(t, f) && i < p.Length0 && k < p.Length0 && i != k && cols <= p.Length1
    requires VecIn(f, Row(p, i, cols), cols) && VecIn(f, Row(p, k, cols), cols)
    modifies p
    ensures OnlyRow(p, i) && Row(p, i, cols) == Sum(f, old(Row(p, i, cols)), old(Row(p, k, cols)))
    ensures forall j :: cols <= j < p.Length1 ==> p[i, j] == old(p[i, j])
  {
    ghost var r, s := Row(p, i, cols), Row(p, k, cols);
    var n: nat := cols;
    while n > 0
      invariant n <= cols
      invariant OnlyRow(p, i)
      invariant forall j :: 0 <= j < p.Length1 && (j < n || cols <= j) ==> p[i, j] == old(p[i, j])
      invariant forall j :: n <= j < cols ==> p[i, j] == f.add(r[j], s[j])
    {
      n := n - 1;
      assert p[i, n] == r[n] && p[k, n] == s[n];
      p[i, n] := Add(t, f, p[i, n], p[k, n]);
    }
  }

  /** Step 1a: scale every row whose entry in the column is non-zero so that the entry is 1. */
  method NormalizePass(t: Tables, ghost f: Field, p: array2<nat>, rows: nat, cols: nat, c: nat)
    requires Computes(t, f) && rows <= p.Length0 && c < cols <= p.Length1
    requires MatrixIn(f, Snap(p, rows, cols), rows, cols)
    modifies p
    ensures Snap(p, rows, cols) == Normalize(f, old(Snap(p, rows, cols)), c)
  {
    ghost var a := Snap(p, rows, cols);
    var i := 0;
    while i < rows
      invariant i <= rows
      invariant forall r :: 0 <= r < i ==> Row(p, r, cols) == NormalizeRow(f, a[r], c)
      invariant forall r :: i <= r < rows ==> Row(p, r, cols) == a[r]
    {
      assert Row(p, i, cols)[c] == p[i, c];
      label L:
      if p[i, c] != 0 {
        var inv := Invert(t, f, p[i, c]);
        ScaleRow(t, f, p, i, cols, inv);
        assert forall r :: 0 <= r < rows && r != i ==> Row(p, r, cols) == old@L(Row(p, r, cols));
      }
      i := i + 1;
    }
  }

  /** Step 1b: clear the column outside row k by adding row k. */
  method EliminatePass(t: Tables, ghost f: Field, p: array2<nat>, rows: nat, cols: nat, k: nat, c: nat)
    requires Computes(t, f) && k < rows <= p.Length0 && c < cols <= p.Length1
    requires MatrixIn(f, Snap(p, rows, cols), rows, cols)
    modifies p
    ensures Snap(p, rows, cols) == Eliminate(f, old(Snap(p, rows, cols)), k, c)
  {
    ghost var a := Snap(p, rows, cols);
    var i := 0;
    while i < rows
      invariant i <= rows
      invariant forall r :: 0 <= r < i && r != k ==> Row(p, r, cols) == EliminateRow(f, a[r], a[k], c)
      invariant forall r :: 0 <= r < rows && (r == k || i <= r) ==> Row(p, r, cols) == a[r]
    {
      assert Row(p, i, cols)[c] == p[i, c];
      label L:
      if i != k && p[i, c] != 0 {
        AddRow(t, f, p, i, k, cols);
        assert forall r :: 0 <= r < rows && r != i ==> Row(p, r, cols) == old@L(Row(p, r, cols));
      }
      i := i + 1;
    }
  }

  /** Step 2: make the diagonal 1 in every row but the bottom one. */
  method FinishPass(t: Tables, ghost f: Field, p: array2<nat>, rows: nat, cols: nat)
    requires Computes(t, f) && rows <= p.Length0 && rows <= cols <= p.Length1
    requires MatrixIn(f, Snap(p, rows, cols), rows, cols)
    modifies p
    ensures Snap(p, rows, cols) == Finish(f, old(Snap(p, rows, cols)), cols)
  {
    ghost var a := Snap(p, rows, cols);
    var i := 0;
    while i + 1 < rows
      invariant i <= rows && (rows > 0 ==> i < rows)
      invariant forall r :: 0 <= r < i ==> Row(p, r, cols) == Scale(f, a[r], f.inv(a[r][cols - 1 - r]))
      invariant forall r :: i <= r < rows ==> Row(p, r, cols) == a[r]
    {
      FinishRow(t, f, p, a[i], i, rows, cols);
      i := i + 1;
    }
  }

  method FinishRow(t: Tables, ghost f: Field, p: array2<nat>, ghost r: Vec, i: nat, rows: nat, cols: nat)
    requires Computes(t, f) && i < rows <= p.Length0 && rows <= cols <= p.Length1
    requires VecIn(f, r, cols) && Row(p, i, cols) == r
    modifies p
    ensures Row(p, i, cols) == Scale(f, r, f.inv(r[cols - 1 - i]))
    ensures forall l :: 0 <= l < rows && l != i ==> Row(p, l, cols) == old(Row(p, l, cols))
  {
    assert Row(p, i, cols)[cols - 1 - i] == p[i, cols - 1 - i];
    var inv := Invert(t, f, p[i, cols - 1 - i]);
    ScaleRow(t, f, p, i, cols, inv);
  }

  method SolveRound(t: Tables, ghost f: Field, p: array2<nat>, rows: nat, cols: nat, k: nat)
    requires Computes(t, f) && k < rows <= p.Length0 && rows <= cols <= p.Length1
    requires MatrixIn(f, Snap(p, rows, cols), rows, cols)
    modifies p
    ensures Snap(p, rows, cols) == Step(f, old(Snap(p, rows, cols)), cols, k)
  {
    var c := cols - 1 - k;
    ghost var a := Snap(p, rows, cols);
    NormalizeIn(f, a, rows, cols, c);
    NormalizePass(t, f, p, rows, cols, c);
    ghost var b := Snap(p, rows, cols);
    EliminatePass(t, f, p, rows, cols, k, c);
    StepIs(f, a, b, cols, k, c);
  }

  lemma StepIs(f: Field, a: Matrix, b: Matrix, cols: nat, k: nat, c: nat)
    requires Shaped(a, cols) && k < |a| <= cols && c == cols - 1 - k && b == Normalize(f, a, c) && Shaped(b, cols) && |b| == |a|
    ensures Eliminate(f, b, k, c) == Step(f, a, cols, k)
  {
  }

  /** Round k, seen from the matrix a the rounds started with. */
  method NextRound(t: Tables, ghost f: Field, p: array2<nat>, rows: nat, cols: nat, ghost a: Matrix, k: nat)
    requires Computes(t, f) && k < rows <= p.Length0 && rows <= cols <= p.Length1
    requires MatrixIn(f, a, rows, cols) && Snap(p, rows, cols) == Steps(f, a, cols, k)
    modifies p
    ensures Snap(p, rows, cols) == Steps(f, a, cols, k + 1) && Computes(t, f)
  {
    StepsIn(f, a, rows, cols, k);
    StepsNext(f, a, cols, k);
    SolveRound(t, f, p, rows, cols, k);
  }

  lemma StepsNone(f: Field, a: Matrix, cols: nat)
    requires Shaped(a, cols)
    ensures Steps(f, a, cols, 0) == a
  {
  }

  method SolveRounds(t: Tables, ghost f: Field, p: array2<nat>, rows: nat, cols: nat)
    requires Computes(t, f) && rows <= p.Length0 && rows <= cols <= p.Length1
    requires MatrixIn(f, Snap(p, rows, cols), rows, cols)
    modifies p
    ensures Snap(p, rows, cols) == Steps(f, old(Snap(p, rows, cols)), cols, rows)
  {
    ghost var a := Snap(p, rows, cols);
    StepsNone(f, a, cols);
    for k := 0 to rows
      invariant Computes(t, f) && Snap(p, rows, cols) == Steps(f, a, cols, k)
    {
      NextRound(t, f, p, rows, cols, a, k);
    }
  }

  lemma FinishIn(t: Tables, f: Field, a: Matrix, rows: nat, cols: nat)
    requires Computes(t, f) && MatrixIn(f, a, rows, cols) && rows <= cols
    ensures MatrixIn(f, Finish(f, a, cols), rows, cols)
  {
    forall i | 0 <= i < rows ensures VecIn(f, Finish(f, a, cols)[i], cols) {
      InverseIn(t, f, a[i][cols - 1 - i]);
      ScaleIn(f, a[i], f.inv(a[i][cols - 1 - i]), cols);
    }
  }

  lemma InverseIn(t: Tables, f: Field, x: nat)
    requires Computes(t, f) && x < f.size
    ensures f.inv(x) < f.size
  {
    InvZero(t.g);
    if x != 0 { InvCorrect(t.g, x); }
  }

  /** The in-place algorithm computes exactly the elimination whose results are proved above. */
  method MatrixSolve(t: Tables, ghost f: Field, p: array2<nat>, rows: nat, cols: nat)
    requires Computes(t, f) && rows <= p.Length0 && rows <= cols <= p.Length1
    requires MatrixIn(f, Snap(p, rows, cols), rows, cols)
    modifies p
    ensures Snap(p, rows, cols) == Solve(f, old(Snap(p, rows, cols)), cols)
    ensures MatrixIn(f, Snap(p, rows, cols), rows, cols)
  {
    StepsIn(f, Snap(p, rows, cols), rows, cols, rows);
    SolveRounds(t, f, p, rows, cols);
    ghost var b := Snap(p, rows, cols);
    FinishIn(t, f, b, rows, cols);
    FinishPass(t, f, p, rows, cols);
    assert Snap(p, rows, cols) == Finish(f, b, cols);
  }
}
