/** The logarithm, exponent and inverse tables, and multiplication by table lookup. */
module GfTables {
  import opened Bits
  import opened GaloisField

  class Tables {
    const g: GF
    const exp: array<nat>
    const log: array<nat>
    const inv: array<nat>

    ghost predicate Shaped() {
      g.Primitive() && exp.Length == log.Length == inv.Length == g.N() && exp != log && log != inv && exp != inv
    }

    ghost predicate Ready()
      reads exp, log, inv
    {
      && Shaped()
      && (forall i {:trigger exp[i]} :: 0 <= i < g.N() ==> exp[i] == g.Exp(i))
      && (forall x :: 0 < x < g.N() ==> log[x] == Log(g, x))
      && (forall x :: 0 <= x < g.N() ==> inv[x] == g.Inv(x))
    }

    /** gf_math_log_tables_generate on tables that start out zeroed. */
    constructor (g: GF)
      requires g.Primitive()
      ensures Ready() && this.g == g && fresh(exp) && fresh(log) && fresh(inv)
    {
      this.g := g;
      exp := new nat[g.N()](_ => 0);
      log := new nat[g.N()](_ => 0);
      inv := new nat[g.N()](_ => 0);
      new;
      FillLogs();
      FillInverses();
    }

    method FillLogs()
      requires Shaped() && log[0] == 0
      modifies exp, log
      ensures forall i {:trigger exp[i]} :: 0 <= i < g.N() ==> exp[i] == g.Exp(i)
      ensures forall x :: 0 < x < g.N() ==> log[x] == Log(g, x)
      ensures log[0] == 0
    {
      var n := g.N();
      var i := 0;
      while i < n
        invariant 0 <= i <= n
        invariant forall j {:trigger exp[j]} :: 0 <= j < i ==> exp[j] == g.Exp(j)
        invariant forall j :: 1 <= j < i ==> 0 < exp[j] < n && log[exp[j]] == j
        invariant log[0] == 0
      {
        var v := NextPower(i);
        NewPower(g, i);
        exp[i] := v;
        log[v] := i;
        i := i + 1;
      }
      forall x | 0 < x < n ensures log[x] == Log(g, x) {
        assert exp[Log(g, x)] == x;
      }
    }

    method NextPower(i: nat) returns (v: nat)
      requires i < exp.Length && (i > 0 ==> exp[i - 1] == g.Exp(i - 1))
      ensures v == g.Exp(i)
    {
      v := if i == 0 then 1 else g.XTime(exp[i - 1]);
    }

    method FillInverses()
      requires Shaped() && log[0] == 0
      requires forall i {:trigger exp[i]} :: 0 <= i < g.N() ==> exp[i] == g.Exp(i)
      requires forall x :: 0 < x < g.N() ==> log[x] == Log(g, x)
      requires inv[0] == 0
      modifies inv
      ensures forall x :: 0 <= x < g.N() ==> inv[x] == g.Inv(x)
    {
      var n := g.N();
      InvZero(g);
      var i := 0;
      while i < n
        invariant 0 <= i <= n
        invariant inv[0] == 0
        invariant forall x :: 0 < x < i ==> 0 < g.Inv(x) < n && inv[g.Inv(x)] == x
      {
        if i == 0 {
          // log[0] is never written, so this round stores 0 at entry 1; round 1 overwrites it
          ExpBound(g, n - 1);
        } else {
          InvByLog(g, i);
          InvCorrect(g, i);
          forall x | 0 < x < i ensures g.Inv(x) != g.Inv(i) { InvInjective(g, x, i); }
        }
        inv[exp[n - 1 - log[i]]] := i;
        i := i + 1;
      }
      forall x | 0 < x < n ensures inv[x] == g.Inv(x) {
        InvCorrect(g, x);
        InvInvolution(g, x);
      }
    }

    /** FEC_GF_MULT: add the logarithms, reduce, and look the sum up. */
    function Mult(a: nat, b: nat): (r: nat)
      requires Ready() && a < g.N() && b < g.N()
      reads exp, log, inv
      ensures r == g.Mul(a, b) && r < g.N()
    {
      MulBound(g, a, b);
      TableMultiply(g, a, b);
      if a != 0 && b != 0 then
        if log[a] + log[b] > g.N() - 1 then exp[log[a] + log[b] - (g.N() - 1)] else exp[log[a] + log[b]]
      else 0
    }
  }

  lemma NewPower(g: GF, i: nat)
    requires g.Primitive() && i < g.N()
    ensures 0 < g.Exp(i) < g.N()
    ensures forall j :: 1 <= j < i ==> g.Exp(j) != g.Exp(i)
  {
    ExpBound(g, i);
    ExpNonzero(g, i);
    forall j | 1 <= j < i ensures g.Exp(j) != g.Exp(i) { ExpInjective(g, j, i); }
  }

  lemma InvZero(g: GF)
    requires g.Valid()
    ensures g.Inv(0) == 0
  {
    assert g.N() == 2 * Pow2(g.m - 1) && Pow2(g.m - 1) == 2 * Pow2(g.m - 2);
    MulZero(g, g.Power(0, g.N() - 3));
  }

  lemma InvInvolution(g: GF, x: nat)
    requires g.Primitive() && 0 < x < g.N()
    ensures 0 < g.Inv(x) < g.N() && g.Inv(g.Inv(x)) == x
  {
    InvCorrect(g, x);
    InvCorrect(g, g.Inv(x));
    MulComm(g, x, g.Inv(x));
    InverseUnique(g, g.Inv(x), g.Inv(g.Inv(x)), x);
  }

  lemma InvInjective(g: GF, x: nat, y: nat)
    requires g.Primitive() && 0 < x < g.N() && 0 < y < g.N() && x != y
    ensures g.Inv(x) != g.Inv(y)
  {
    InvInvolution(g, x);
    InvInvolution(g, y);
  }

  lemma LogsAdd(g: GF, a: nat, b: nat, i: nat, j: nat)
    requires g.Primitive() && a == g.Exp(i) && b == g.Exp(j)
    ensures g.Mul(a, b) == g.Exp(if i + j > g.N() - 1 then i + j - (g.N() - 1) else i + j)
  {
    ExpAdd(g, i, j);
    if i + j > g.N() - 1 { ExpPeriod(g, i + j - (g.N() - 1)); }
  }

  /** Adding logarithms modulo N - 1 multiplies, for all pairs of symbols. */
  lemma TableMultiply(g: GF, a: nat, b: nat)
    requires g.Primitive() && a < g.N() && b < g.N()
    ensures a == 0 || b == 0 ==> g.Mul(a, b) == 0
    ensures a != 0 && b != 0 ==>
      var s := Log(g, a) + Log(g, b);
      g.Mul(a, b) == g.Exp(if s > g.N() - 1 then s - (g.N() - 1) else s)
  {
    MulZero(g, a);
    MulZero(g, b);
    if a != 0 && b != 0 { LogsAdd(g, a, b, Log(g, a), Log(g, b)); }
  }
}
