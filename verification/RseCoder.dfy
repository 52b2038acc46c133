/** The coder as the program runs it: tables, weight matrix and equation matrices updated in place. */
module RseCoder {
  import opened Bits
  import opened GaloisField
  import opened GfTables
  import opened Algebra
  import opened Elimination
  import opened ErasureCode
  import opened MatrixSolver
  import opened RseBlock
  import opened RseRoundTrip
  import opened RseRecovery

  lemma {:induction false} PowOne(f: Field, i: nat)
    requires IsField(f)
    ensures Pow(f, 1, i) == 1
  {
    if i != 0 {
      PowOne(f, i - 1);
      Zero(f, 1);
    }
  }

  method FillRow(t: Tables, ghost f: Field, weights: array2<nat>, i: nat)
    requires Computes(t, f) && i < weights.Length0 && weights.Length1 < f.size
    requires forall r, s :: 0 <= r < i && 0 <= s < weights.Length1 ==> weights[r, s] == Pow(f, s + 1, r)
    modifies weights
    ensures OnlyRow(weights, i)
    ensures forall s :: 0 <= s < weights.Length1 ==> weights[i, s] == Pow(f, s + 1, i)
  {
    PowOne(f, i);
    for j := 0 to weights.Length1
      invariant OnlyRow(weights, i)
      invariant forall s :: 0 <= s < j ==> weights[i, s] == Pow(f, s + 1, i)
    {
      if j == 0 || i == 0 {
        weights[i, j] := 1;
      } else {
        PowIn(f, j + 1, i - 1);
        weights[i, j] := Multiply(t, f, j + 1, weights[i - 1, j]);
      }
    }
  }

  method FillPowers(t: Tables, ghost f: Field, weights: array2<nat>)
    requires Computes(t, f) && weights.Length0 <= weights.Length1 < f.size
    modifies weights
    ensures Snap(weights, weights.Length0, weights.Length1) == Vandermonde(f, weights.Length0, weights.Length1)
  {
    var h, n := weights.Length0, weights.Length1;
    for i := 0 to h
      invariant forall r, s :: 0 <= r < i && 0 <= s < n ==> weights[r, s] == Pow(f, s + 1, r)
    {
      FillRow(t, f, weights, i);
    }
    forall i | 0 <= i < h ensures Row(weights, i, n) == VRow(f, i, n) {
      assert forall s :: 0 <= s < n ==> Row(weights, i, n)[s] == VRow(f, i, n)[s];
    }
  }

  /** Fills in the powers and brings them to systematic form: codewords_generate. */
  method CodewordsGenerate(t: Tables, ghost f: Field, weights: array2<nat>)
    requires Computes(t, f) && weights.Length0 <= weights.Length1 < f.size
    modifies weights
    ensures Snap(weights, weights.Length0, weights.Length1) == Weights(f, weights.Length0, weights.Length1)
  {
    var h, n := weights.Length0, weights.Length1;
    FillPowers(t, f, weights);
    VandermondeIn(f, h, n);
    MatrixSolve(t, f, weights, h, n);
  }

  /** One pass over the slots, as fec_block_types_find sorts them. */
  method TypesFind(p: Params, b: Block) returns (know: seq<nat>, want: seq<nat>, pari: seq<nat>)
    requires p.h <= p.n && b.n <= |b.cbi| == |b.pstat|
    ensures know == Find(p, b, Know, b.n) && want == Find(p, b, Want, b.n) && pari == Find(p, b, Pari, b.n)
  {
    know, want, pari := [], [], [];
    var i := 0;
    while i < b.n
      invariant i <= b.n
      invariant know == Find(p, b, Know, i) && want == Find(p, b, Want, i) && pari == Find(p, b, Pari, i)
    {
      FindNext(p, b, Know, i);
      FindNext(p, b, Want, i);
      FindNext(p, b, Pari, i);
      if b.pstat[i] == Wanted { want := want + [i]; }
      if b.pstat[i] == Known || b.pstat[i] == Genned { know := know + [i]; }
      if b.cbi[i] >= p.K() && b.pstat[i] != Ignore && b.pstat[i] != Genold { pari := pari + [i]; }
      i := i + 1;
    }
  }

  /** The symbol matrix_multiply takes from a known packet. */
  method KnownSymbol(p: Params, ghost f: Field, b: Block, q: nat, c: nat) returns (x: nat)
    requires BlockOk(p, f, b) && q < b.n && c < b.c <= p.cols && f.size == Pow2(p.bits)
    ensures x == Symbol(p, b, q, c) && x < f.size
  {
    x := if b.plen[q] > c then b.pdata[q][c] else 0;
    if c >= b.c - p.extra && b.cbi[q] < p.K() {
      x := LengthDigit(p, b.plen[q], b.c - c - 1);
    }
  }

  /** FEC_MAC for one known symbol x of column cq, over the rows in use. */
  method AccumulateColumn(t: Tables, ghost f: Field, weights: array2<nat>, d: array2<nat>, rows: seq<nat>, cq: nat, x: nat)
    requires Computes(t, f) && weights != d && |rows| <= d.Length0 && 0 < d.Length1 && cq < weights.Length1 && x < f.size
    requires forall j :: 0 <= j < |rows| ==> rows[j] < weights.Length0 && weights[rows[j], cq] < f.size && d[j, 0] < f.size
    modifies d
    ensures forall j :: 0 <= j < |rows| ==>
      d[j, 0] < f.size && d[j, 0] == f.add(old(d[j, 0]), f.mul(weights[rows[j], cq], x))
    ensures forall r, s :: 0 <= r < d.Length0 && 0 < s < d.Length1 ==> d[r, s] == old(d[r, s])
  {
    for j := 0 to |rows|
      invariant forall r, s :: 0 <= r < d.Length0 && 0 < s < d.Length1 ==> d[r, s] == old(d[r, s])
      invariant forall r :: j <= r < |rows| ==> d[r, 0] == old(d[r, 0])
      invariant forall r :: 0 <= r < j ==>
        d[r, 0] < f.size && d[r, 0] == f.add(old(d[r, 0]), f.mul(weights[rows[r], cq], x))
    {
      var y := Multiply(t, f, weights[rows[j], cq], x);
      d[j, 0] := Add(t, f, d[j, 0], y);
    }
  }

  lemma WriteOneOk(f: Field, p: Params, b: Block, q: nat, x: nat, c: nat, mode: char)
    requires BlockOk(p, f, b) && q < |b.cbi| && c < b.c <= p.cols && x < f.size
    ensures BlockOk(p, f, WriteOne(p, b, q, x, c, mode))
  {
  }

  /** One wanted packet in write_accumulated_sum_into_wanted_packets. */
  method StoreInBlock(p: Params, old_b: Block, q: nat, x: nat, c: nat, mode: char) returns (b: Block)
    requires p.h <= p.n && q < |old_b.cbi| == |old_b.plen| == |old_b.pdata| == |old_b.pstat|
    requires c < old_b.c && c < |old_b.pdata[q]|
    ensures b == WriteOne(p, old_b, q, x, c, mode)
  {
    var row: seq<nat> := old_b.pdata[q][c := x];
    b := old_b.(pdata := old_b.pdata[q := row]);
    if c == b.c - 1 {
      if mode == 'd' || mode == 'e' { b := b.(pstat := b.pstat[q := Genned]); }
      if p.extra == 0 { b := b.(plen := b.plen[q := b.c]); }
    }
    if b.cbi[q] < p.K() {
      if c == 0 { b := b.(plen := b.plen[q := 0]); }
      if c >= b.c - p.extra {
        var piece := x * Pow2(p.bits * (b.c - c - 1));
        b := b.(plen := b.plen[q := b.plen[q] + piece]);
      }
    }
  }

  /** The results of one position, as the column of constants left by the solver. */
  function FirstColumn(d: array2<nat>, m: nat): Vec
    requires m <= d.Length0 && 0 < d.Length1
    reads d
  {
    seq<nat>(m, j requires 0 <= j < m reads d => d[j, 0])
  }

  lemma ResultsSolved(f: Field, p: Params, w: Matrix, b: Block, mode: char, c: nat, a: Matrix)
    requires Codable(p, w, b) && c < b.c && Decoding(mode) && a == WantedEquations(f, p, w, b, c)
    ensures |Results(f, p, w, b, mode, c)| == |Wants(p, b)| == |a| && Shaped(a, |a| + 1)
    ensures forall j :: 0 <= j < |a| ==> Results(f, p, w, b, mode, c)[j] == Solve(f, a, |a| + 1)[j][0]
  {
    forall j | 0 <= j < |a| ensures Results(f, p, w, b, mode, c)[j] == Solve(f, a, |a| + 1)[j][0] {
      ResultsDecoded(f, p, w, b, mode, c, j);
    }
  }

  class Coder {
    const p: Params
    const t: Tables
    ghost const f: Field
    const weights: array2<nat>
    const e: array2<nat>
    const d: array2<nat>
    var fb: Block

    ghost predicate Valid()
      reads this, weights, e, d, t.exp, t.log, t.inv
    {
      && Computes(t, f) && p.h <= p.n < f.size && f.size == Pow2(p.bits)
      && weights.Length0 == p.h && weights.Length1 == p.n && IsWeights(f, Snap(weights, p.h, p.n), p.h, p.n)
      && weights != e && weights != d && e != d
      && e.Length0 == d.Length0 == p.h && e.Length1 == d.Length1 == p.h + 1
      && (forall i :: 0 <= i < p.h ==> e[i, 0] == 0)
      && BlockOk(p, f, fb)
    }

    ghost function W(): Matrix
      reads weights
      requires weights.Length0 == p.h && weights.Length1 == p.n
    {
      Snap(weights, p.h, p.n)
    }

    /** rse_init: build the tables and the systematic weights once. */
    constructor (g: GF, p: Params, fb: Block)
      requires g.Primitive() && p.h <= p.n < g.N() && p.bits == g.m && BlockOk(p, FieldOf(g), fb)
      ensures Valid() && this.p == p && this.fb == fb && t.g == g && f == FieldOf(g)
      ensures fresh(weights) && fresh(e) && fresh(d) && fresh(t.exp) && fresh(t.log) && fresh(t.inv)
    {
      this.p := p;
      var tables := new Tables(g);
      this.t := tables;
      ghost var field := FieldOf(g);
      this.f := field;
      GaloisIsField(g);
      var w := new nat[p.h, p.n]((i, j) => 0);
      CodewordsGenerate(tables, field, w);
      WeightsGood(field, p.h, p.n);
      this.weights := w;
      this.e := new nat[p.h, p.h + 1]((i, j) => 0);
      this.d := new nat[p.h, p.h + 1]((i, j) => 0);
      this.fb := fb;
    }

    ghost predicate Lists(know: seq<nat>, want: seq<nat>, pari: seq<nat>)
      reads this
    {
      && p.h <= p.n && fb.n <= |fb.cbi| == |fb.pstat| && |want| == |pari| <= p.h
      && (forall j :: 0 <= j < |know| ==> know[j] < fb.n)
      && (forall j :: 0 <= j < |want| ==> want[j] < fb.n)
      && (forall j :: 0 <= j < |pari| ==> pari[j] < fb.n && fb.cbi[pari[j]] >= p.K())
    }

    /** The entries of equation i that are written so far. */
    ghost predicate EquationIs(want: seq<nat>, pari: seq<nat>, i: int, m: nat)
      reads this, weights, e
    {
      && p.h <= p.n && weights.Length0 == p.h && weights.Length1 == p.n && e.Length0 == p.h && e.Length1 == p.h + 1
      && 0 <= i < |pari| && i < p.h && m <= |want| <= p.h
      && pari[i] < |fb.cbi| && p.K() <= fb.cbi[pari[i]] < p.n
      && (forall j :: 0 <= j < m ==> want[j] < |fb.cbi| && fb.cbi[want[j]] < p.n)
      && forall j :: 0 <= j < m ==> e[i, |want| - j] == weights[p.n - 1 - fb.cbi[pari[i]], fb.cbi[want[j]]]
    }

    method GenerateEquation(want: seq<nat>, pari: seq<nat>, i: nat)
      requires Valid() && Lists([], want, pari) && i < |pari|
      modifies e
      ensures Valid() && EquationIs(want, pari, i, |want|)
      ensures forall r, s :: 0 <= r < p.h && 0 <= s <= p.h && r != i ==> e[r, s] == old(e[r, s])
    {
      var row := p.n - fb.cbi[pari[i]] - 1;
      for j := 0 to |want|
        invariant forall r :: 0 <= r < p.h ==> e[r, 0] == 0
        invariant forall r, s :: 0 <= r < p.h && 0 <= s <= p.h && r != i ==> e[r, s] == old(e[r, s])
        invariant EquationIs(want, pari, i, j)
      {
        e[i, |want| - j] := weights[row, fb.cbi[want[j]]];
      }
    }

    method GenerateEquations(want: seq<nat>, pari: seq<nat>)
      requires Valid() && Lists([], want, pari)
      modifies e
      ensures Valid() && Prepared(Columns(fb, want), Columns(fb, pari))
    {
      for i := 0 to |pari|
        invariant Valid() && forall r :: 0 <= r < i ==> EquationIs(want, pari, r, |want|)
      {
        label L:
        GenerateEquation(want, pari, i);
        forall r | 0 <= r < i ensures EquationIs(want, pari, r, |want|) {
          assert old@L(EquationIs(want, pari, r, |want|));
        }
      }
      EquationsPrepared(want, pari);
    }

    lemma EquationsPrepared(want: seq<nat>, pari: seq<nat>)
      requires Valid() && Lists([], want, pari) && forall i :: 0 <= i < |pari| ==> EquationIs(want, pari, i, |want|)
      ensures Prepared(Columns(fb, want), Columns(fb, pari))
    {
      forall i, j | 0 <= i < |pari| && 0 <= j < |want|
        ensures e[i, |want| - j] == weights[p.n - 1 - fb.cbi[pari[i]], fb.cbi[want[j]]]
      {
        assert EquationIs(want, pari, i, |want|);
      }
    }

    /** code_equations_duplicate. */
    method Duplicate(m: nat)
      requires Valid() && m <= p.h
      modifies d
      ensures Valid() && forall i, j :: 0 <= i < m && 0 <= j <= m ==> d[i, j] == e[i, j]
    {
      for i := 0 to m
        invariant forall r, s :: 0 <= r < i && 0 <= s <= m ==> d[r, s] == e[r, s]
      {
        for j := 0 to m + 1
          invariant forall r, s :: 0 <= r < i && 0 <= s <= m ==> d[r, s] == e[r, s]
          invariant forall s :: 0 <= s < j ==> d[i, s] == e[i, s]
        {
          d[i, j] := e[i, j];
        }
      }
    }

    /** The weight rows of the parity slots in use. */
    function Rows(pari: seq<nat>): (r: seq<nat>)
      requires p.h <= p.n && forall j :: 0 <= j < |pari| ==> pari[j] < |fb.cbi| && fb.cbi[pari[j]] < p.n
      reads this
    {
      seq<nat>(|pari|, j requires 0 <= j < |pari| && pari[j] < |fb.cbi| && fb.cbi[pari[j]] < p.n reads this =>
        p.n - fb.cbi[pari[j]] - 1)
    }

    /** The constants hold the sum over the first i known packets. */
    ghost predicate Accumulated(know: seq<nat>, pari: seq<nat>, c: nat, i: nat)
      requires Valid() && Lists(know, pari, pari) && c < fb.c <= p.cols && i <= |know|
      reads this, weights, e, d, t.exp, t.log, t.inv
    {
      forall j :: 0 <= j < |pari| ==>
        && d[j, 0] < f.size
        && d[j, 0] == Dot(f, Gather(W()[Rows(pari)[j]], Columns(fb, know)), Symbols(p, fb, know, c), i)
    }

    /** matrix_multiply: accumulate every known packet into the constants of the parity equations. */
    method MatrixMultiply(know: seq<nat>, pari: seq<nat>, c: nat)
      requires Valid() && Lists(know, pari, pari) && c < fb.c <= p.cols
      requires forall j :: 0 <= j < |pari| ==> d[j, 0] == 0
      modifies d
      ensures Valid() && Accumulated(know, pari, c, |know|)
      ensures forall i, j :: 0 <= i < p.h && 0 < j <= p.h ==> d[i, j] == old(d[i, j])
    {
      for i := 0 to |know|
        invariant Valid() && Accumulated(know, pari, c, i)
        invariant forall r, s :: 0 <= r < p.h && 0 < s <= p.h ==> d[r, s] == old(d[r, s])
      {
        Accumulate(know, pari, c, i);
      }
    }

    method Accumulate(know: seq<nat>, pari: seq<nat>, c: nat, i: nat)
      requires Valid() && Lists(know, pari, pari) && c < fb.c <= p.cols && i < |know|
      requires Accumulated(know, pari, c, i)
      modifies d
      ensures Valid() && Accumulated(know, pari, c, i + 1)
      ensures forall r, s :: 0 <= r < p.h && 0 < s <= p.h ==> d[r, s] == old(d[r, s])
    {
      var x := KnownSymbol(p, f, fb, know[i], c);
      assert forall r :: 0 <= r < p.h ==> W()[r][fb.cbi[know[i]]] == weights[r, fb.cbi[know[i]]];
      AccumulateColumn(t, f, weights, d, Rows(pari), fb.cbi[know[i]], x);
    }

    ghost predicate Ready(know: seq<nat>, want: seq<nat>, pari: seq<nat>)
      requires Valid()
      reads this, weights, e, d, t.exp, t.log, t.inv
    {
      && Codable(p, W(), fb) && |want| <= p.h
      && know == Find(p, fb, Know, fb.n) && want == Wants(p, fb) && pari == Uses(p, fb)
    }

    /** e holds the equations for wanted columns wc and parity columns pc, without constants. */
    ghost predicate Prepared(wc: seq<nat>, pc: seq<nat>)
      reads weights, e
    {
      && InBounds(p.h, p.n, wc, pc) && |wc| <= p.h && e.Length0 == p.h && e.Length1 == p.h + 1
      && weights.Length0 == p.h && weights.Length1 == p.n
      && forall i, j :: 0 <= i < |pc| && 0 <= j < |wc| ==> e[i, |wc| - j] == weights[p.n - 1 - pc[i], wc[j]]
    }

    lemma EquationsSnap(wc: seq<nat>, pc: seq<nat>, x: Vec)
      requires Valid() && Prepared(wc, pc) && |x| == |wc|
      requires forall i :: 0 <= i < |wc| ==> d[i, 0] == x[i]
      requires forall i, j :: 0 <= i < |wc| && 0 < j <= |wc| ==> d[i, j] == e[i, j]
      ensures Snap(d, |wc|, |wc| + 1) == Equations(W(), p.n, wc, pc, x)
    {
      var m, a := |wc|, Equations(W(), p.n, wc, pc, x);
      forall i | 0 <= i < m ensures Row(d, i, m + 1) == a[i] {
        var row := p.n - 1 - pc[i];
        forall z | 0 <= z < m + 1 ensures Row(d, i, m + 1)[z] == a[i][z] {
          if z > 0 {
            assert e[i, m - (m - z)] == weights[row, wc[m - z]];
            assert a[i][z] == W()[row][wc[m - z]];
          }
        }
      }
    }

    /** d holds the constants of one position, with the equations beside them. */
    ghost predicate ConstantsAre(know: seq<nat>, want: seq<nat>, pari: seq<nat>, c: nat)
      requires Valid() && Ready(know, want, pari) && c < fb.c
      reads this, weights, e, d, t.exp, t.log, t.inv
    {
      && (forall j :: 0 <= j < |want| ==> d[j, 0] < f.size && d[j, 0] == Constants(f, p, W(), fb, c)[j])
      && forall i, j :: 0 <= i < |want| && 0 < j <= |want| ==> d[i, j] == e[i, j]
    }

    /** Step 3a: the constants of one symbol position, with the equations beside them. */
    method ComputeConstants(know: seq<nat>, want: seq<nat>, pari: seq<nat>, c: nat)
      requires Valid() && Ready(know, want, pari) && c < fb.c
      modifies d
      ensures Valid() && ConstantsAre(know, want, pari, c)
    {
      Duplicate(|want|);
      MatrixMultiply(know, pari, c);
      AccumulatedConstants(know, want, pari, c);
    }

    lemma AccumulatedConstants(know: seq<nat>, want: seq<nat>, pari: seq<nat>, c: nat)
      requires Valid() && Ready(know, want, pari) && c < fb.c && Accumulated(know, pari, c, |know|)
      ensures forall j :: 0 <= j < |want| ==> d[j, 0] < f.size && d[j, 0] == Constants(f, p, W(), fb, c)[j]
    {
      forall j | 0 <= j < |want| ensures d[j, 0] < f.size && d[j, 0] == Constants(f, p, W(), fb, c)[j] {
        ConstantIsSum(f, p, W(), fb, c, j);
        assert Rows(pari)[j] == p.n - 1 - fb.cbi[pari[j]];
      }
    }

    /** Step 3b: solve them. */
    method SolveColumn(ghost a: Matrix, m: nat)
      requires Valid() && m <= p.h && MatrixIn(f, a, m, m + 1) && Shaped(a, m + 1) && Snap(d, m, m + 1) == a
      modifies d
      ensures Valid()
      ensures forall j :: 0 <= j < m ==> d[j, 0] < f.size && d[j, 0] == Solve(f, a, m + 1)[j][0]
    {
      MatrixSolve(t, f, d, m, m + 1);
      assert forall j :: 0 <= j < m ==> Snap(d, m, m + 1)[j][0] == d[j, 0];
    }

    /** The equations of this position stand in d. */
    lemma ColumnEquations(know: seq<nat>, want: seq<nat>, pari: seq<nat>, c: nat, a: Matrix)
      requires Valid() && Ready(know, want, pari) && c < fb.c && Prepared(Columns(fb, want), Columns(fb, pari))
      requires ConstantsAre(know, want, pari, c) && a == WantedEquations(f, p, W(), fb, c)
      ensures MatrixIn(f, a, |want|, |want| + 1) && Shaped(a, |want| + 1) && Snap(d, |want|, |want| + 1) == a
    {
      var x := Constants(f, p, W(), fb, c);
      EquationsSnap(Columns(fb, want), Columns(fb, pari), x);
      EquationsIn(f, W(), p.h, p.n, Columns(fb, want), Columns(fb, pari), x);
    }

    method SolveConstants(mode: char, know: seq<nat>, want: seq<nat>, pari: seq<nat>, c: nat)
      requires Valid() && Ready(know, want, pari) && c < fb.c && Decoding(mode)
      requires Prepared(Columns(fb, want), Columns(fb, pari)) && ConstantsAre(know, want, pari, c)
      modifies d
      ensures Valid()
      ensures forall j :: 0 <= j < |want| ==> d[j, 0] < f.size && d[j, 0] == Results(f, p, W(), fb, mode, c)[j]
    {
      ghost var a := WantedEquations(f, p, W(), fb, c);
      ColumnEquations(know, want, pari, c, a);
      ResultsSolved(f, p, W(), fb, mode, c, a);
      SolveColumn(a, |want|);
    }

    method ComputeColumn(mode: char, know: seq<nat>, want: seq<nat>, pari: seq<nat>, c: nat)
      requires Valid() && Ready(know, want, pari) && c < fb.c
      requires Prepared(Columns(fb, want), Columns(fb, pari))
      modifies d
      ensures Valid()
      ensures forall j :: 0 <= j < |want| ==> d[j, 0] < f.size && d[j, 0] == Results(f, p, W(), fb, mode, c)[j]
    {
      ComputeConstants(know, want, pari, c);
      if Decoding(mode) { SolveConstants(mode, know, want, pari, c); }
    }

    method StoreSymbol(mode: char, q: nat, x: nat, c: nat)
      requires Valid() && q < |fb.cbi| && c < fb.c <= p.cols && x < f.size
      modifies this`fb
      ensures Valid() && fb == WriteOne(p, old(fb), q, x, c, mode)
    {
      WriteOneOk(f, p, fb, q, x, c, mode);
      fb := StoreInBlock(p, fb, q, x, c, mode);
    }

    method WriteWanted(mode: char, want: seq<nat>, c: nat)
      requires Valid() && c < fb.c <= p.cols && |want| <= p.h
      requires forall j :: 0 <= j < |want| ==> want[j] < |fb.cbi| && d[j, 0] < f.size
      modifies this`fb
      ensures Valid() && fb == WriteSome(p, old(fb), want, FirstColumn(d, |want|), c, mode, |want|)
    {
      for j := 0 to |want|
        invariant Valid() && fb == WriteSome(p, old(fb), want, FirstColumn(d, |want|), c, mode, j)
      {
        StoreSymbol(mode, want[j], d[j, 0], c);
      }
    }

    /** Step 3 of rse_code for position c: constants, equations, store. */
    method CodeColumn(ghost b: Block, mode: char, know: seq<nat>, want: seq<nat>, pari: seq<nat>, c: nat)
      requires Valid() && Codable(p, W(), b) && c < b.c && |want| <= p.h
      requires know == Find(p, b, Know, b.n) && want == Wants(p, b) && pari == Uses(p, b)
      requires Prepared(Columns(b, want), Columns(b, pari))
      requires fb == WriteAll(p, b, want, ResultSheet(f, p, W(), b, mode), mode, c)
      modifies this`fb, d
      ensures Valid() && fb == WriteAll(p, b, want, ResultSheet(f, p, W(), b, mode), mode, c + 1)
    {
      WriteAllInputs(p, b, ResultSheet(f, p, W(), b, mode), mode, c);
      SameLists(p, W(), b, fb);
      SameResults(f, p, W(), b, fb, mode, c);
      ComputeColumn(mode, know, want, pari, c);
      assert FirstColumn(d, |want|) == Results(f, p, W(), b, mode, c);
      WriteWanted(mode, want, c);
    }

    method CodeColumns(mode: char, know: seq<nat>, want: seq<nat>, pari: seq<nat>)
      requires Valid() && Codable(p, W(), fb) && |want| <= p.h
      requires know == Find(p, fb, Know, fb.n) && want == Wants(p, fb) && pari == Uses(p, fb)
      requires Prepared(Columns(fb, want), Columns(fb, pari))
      modifies this`fb, d
      ensures Valid() && fb == Coded(f, p, W(), old(fb), mode)
    {
      ghost var b := fb;
      for c := 0 to fb.c
        invariant Valid() && Prepared(Columns(b, want), Columns(b, pari))
        invariant fb == WriteAll(p, b, want, ResultSheet(f, p, W(), b, mode), mode, c)
      {
        CodeColumn(b, mode, know, want, pari, c);
      }
    }

    /** rse_code: 0 and the coded block when the checks pass, an error and no change otherwise. */
    method RseCode(mode: char) returns (rc: int)
      requires Valid()
      modifies this`fb, e, d
      ensures Valid() && rc == Check(p, f.size, old(fb))
      ensures rc != 0 ==> fb == old(fb)
      ensures rc == 0 ==> Codable(p, W(), old(fb)) && fb == Coded(f, p, W(), old(fb), mode)
    {
      if fb.n >= t.g.N() || fb.c > p.cols || fb.n < 1 || fb.c < 1 { return INVALID_PARAMS; }
      var know, want, pari := TypesFind(p, fb);
      if |know| < 1 || |want| < 1 || |pari| < |want| { return MISSING_DATA; }
      if |pari| > p.h { return MISSING_DATA; }
      pari := pari[..|want|];
      GenerateEquations(want, pari);
      CodeColumns(mode, know, want, pari);
      return 0;
    }
  }
}
