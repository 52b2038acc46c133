/** What a proof does to the state of a packet and to the standing usage of devices. */
module PlanState {
  import opened Common
  import opened ProofRules
  import opened Prover

  type Node = nat

  /** Reading a map of numbers gives zero for what is not there. */
  function Get(m: State, v: Bound): real { if v in m then m[v] else 0.0 }

  function GetIn<K(==)>(m: map<K, State>, k: K): State { if k in m then m[k] else map[] }

  /** The usage of each device and of the whole solution. */
  datatype Books = Books(nodeM: map<Node, State>, solM: State) {
    function Usage(n: Node, v: Bound): real { Get(GetIn(nodeM, n), v) }

    function SetUsage(n: Node, v: Bound, x: real): Books { this.(nodeM := nodeM[n := GetIn(nodeM, n)[v := x]]) }

    function Sum(v: Bound, count: nat): real { if count == 0 then 0.0 else Sum(v, count - 1) + Usage(count - 1, v) }
  }

  /** The names of the area bounds of each device. */
  type AreaNames = map<Node, (Bound, Bound, Bound)>

  function Names(area: AreaNames, n: Node): (Bound, Bound, Bound) { if n in area then area[n] else ("", "", "") }

  /** Bounds that only the once-per-device operation changes on a device. */
  predicate OnceOnly(area: AreaNames, v: Bound) {
    v != "" && forall n :: n in area ==> v != area[n].0 && v != area[n].1 && v != area[n].2
  }

  function AddUsage(b: Books, n: Node, v: Bound, x: real): Books { b.SetUsage(n, v, b.Usage(n, v) + x) }

  /** What one operation does to the books. */
  function Charge(area: AreaNames, n: Node, b: Books, op: Op): Books {
    match op
    case Once(v, x) =>
      if b.Usage(n, v) == 0.0 then b.SetUsage(n, v, x).(solM := b.solM[v := Get(b.solM, v) + x]) else b
    case Area(l, r, f) =>
      var names := Names(area, n);
      AddUsage(AddUsage(AddUsage(b, n, names.0, l), n, names.1, r), n, names.2, f)
    case _ => b
  }

  function Scale(y: real, x: real): real { y * x }

  /** What one operation does to the state; sums and products start from the state before the rule. */
  function Change(m: State, acc: State, op: Op): State {
    match op
    case Plus(v, x) => acc[v := Get(m, v) + x]
    case Times(v, x) => acc[v := Scale(Get(m, v), x)]
    case Assign(v, x) => acc[v := x]
    case _ => acc
  }

  function ChargeAll(area: AreaNames, n: Node, b: Books, ops: seq<Op>): Books
    decreases |ops|
  {
    if ops == [] then b else Charge(area, n, ChargeAll(area, n, b, ops[..|ops| - 1]), ops[|ops| - 1])
  }

  function ChangeAll(m: State, ops: seq<Op>): State
    decreases |ops|
  {
    if ops == [] then m else Change(m, ChangeAll(m, ops[..|ops| - 1]), ops[|ops| - 1])
  }

  method RunOp(area: AreaNames, n: Node, m: State, acc: State, b: Books, op: Op) returns (m2: State, b2: Books)
    ensures m2 == Change(m, acc, op) && b2 == Charge(area, n, b, op)
  {
    m2, b2 := acc, b;
    match op {
      case Plus(v, x) => m2 := m2[v := Get(m, v) + x];
      case Times(v, x) => m2 := m2[v := Scale(Get(m, v), x)];
      case Assign(v, x) => m2 := m2[v := x];
      case Once(v, x) =>
        if b2.Usage(n, v) == 0.0 {
          b2 := b2.SetUsage(n, v, x).(solM := b2.solM[v := Get(b2.solM, v) + x]);
        }
      case Area(l, r, f) =>
        var names := Names(area, n);
        b2 := AddUsage(b2, n, names.0, l);
        b2 := AddUsage(b2, n, names.1, r);
        b2 := AddUsage(b2, n, names.2, f);
    }
  }

  /** The operations of one rule, one after the other. */
  method RunOps(area: AreaNames, n: Node, m: State, b: Books, ops: seq<Op>) returns (m2: State, b2: Books)
    ensures m2 == ChangeAll(m, ops) && b2 == ChargeAll(area, n, b, ops)
  {
    m2, b2 := m, b;
    for i := 0 to |ops|
      invariant m2 == ChangeAll(m, ops[..i]) && b2 == ChargeAll(area, n, b, ops[..i])
    {
      assert ops[..i + 1][..i] == ops[..i];
      m2, b2 := RunOp(area, n, m, m2, b2, ops[i]);
    }
    assert ops[..|ops|] == ops;
  }

  // ---------- The transformation of a proof: its own rule first, then the sub-proofs from the last to the first ----------

  function Transform(area: AreaNames, n: Node, m: State, b: Books, t: Proof): (State, Books)
    decreases t, 0
  {
    if t.Assumed? || t.subs == [] then (m, b)
    else TransformSubs(area, n, ChangeAll(m, t.rule.ops), ChargeAll(area, n, b, t.rule.ops), t, 0)
  }

  /** The sub-proofs from position k on, the last one first. */
  function TransformSubs(area: AreaNames, n: Node, m: State, b: Books, t: Proof, k: nat): (State, Books)
    requires t.Derived? && k <= |t.subs|
    decreases t, |t.subs| - k
  {
    if k == |t.subs| then (m, b)
    else
      var (m1, b1) := TransformSubs(area, n, m, b, t, k + 1);
      match t.subs[k]
      case None => (m1, b1)
      case Some(sub) =>
        if sub.Assumed? || sub.subs == [] then (m1, b1)
        else TransformSubs(area, n, ChangeAll(m1, sub.rule.ops), ChargeAll(area, n, b1, sub.rule.ops), sub, 0)
  }

  // ---------- Conservation ----------

  /** The total of a bound is the sum over the devices. */
  predicate Balanced(b: Books, v: Bound, count: nat) { Get(b.solM, v) == b.Sum(v, count) }

  /** Other devices and other bounds are untouched. */
  lemma {:induction false} SumSet(b: Books, c: Books, n: Node, v: Bound, count: nat)
    requires forall i :: i != n ==> c.Usage(i, v) == b.Usage(i, v)
    ensures c.Sum(v, count) == b.Sum(v, count) + if n < count then c.Usage(n, v) - b.Usage(n, v) else 0.0
    decreases count
  {
    if count > 0 { SumSet(b, c, n, v, count - 1); }
  }

  /** A charge that a device has is kept for good, and the total stays the sum over devices. */
  ghost predicate Lawful(b: Books, c: Books, v: Bound, count: nat) {
    && (Balanced(b, v, count) ==> Balanced(c, v, count))
    && forall n: nat :: b.Usage(n, v) != 0.0 ==> c.Usage(n, v) == b.Usage(n, v)
  }

  lemma ChargeLawful(area: AreaNames, n: Node, b: Books, op: Op, v: Bound, count: nat)
    requires n < count && OnceOnly(area, v)
    ensures Lawful(b, Charge(area, n, b, op), v, count)
  {
    var c := Charge(area, n, b, op);
    SumSet(b, c, n, v, count);
  }

  lemma {:induction false} ChargeAllLawful(area: AreaNames, n: Node, b: Books, ops: seq<Op>, v: Bound, count: nat)
    requires n < count && OnceOnly(area, v)
    ensures Lawful(b, ChargeAll(area, n, b, ops), v, count)
    decreases |ops|
  {
    if ops != [] {
      var front := ops[..|ops| - 1];
      ChargeAllLawful(area, n, b, front, v, count);
      ChargeLawful(area, n, ChargeAll(area, n, b, front), ops[|ops| - 1], v, count);
    }
  }

  lemma LawfulTrans(b: Books, c: Books, d: Books, v: Bound, count: nat)
    requires Lawful(b, c, v, count) && Lawful(c, d, v, count)
    ensures Lawful(b, d, v, count)
  {
  }

  lemma {:induction false} SubsLawful(area: AreaNames, n: Node, m: State, b: Books, t: Proof, k: nat, v: Bound, count: nat)
    requires n < count && OnceOnly(area, v) && t.Derived? && k <= |t.subs|
    ensures Lawful(b, TransformSubs(area, n, m, b, t, k).1, v, count)
    decreases t, |t.subs| - k
  {
    if k < |t.subs| {
      SubsLawful(area, n, m, b, t, k + 1, v, count);
      var (m1, b1) := TransformSubs(area, n, m, b, t, k + 1);
      if t.subs[k].Some? && t.subs[k].value.Derived? && t.subs[k].value.subs != [] {
        var sub := t.subs[k].value;
        var b2 := ChargeAll(area, n, b1, sub.rule.ops);
        ChargeAllLawful(area, n, b1, sub.rule.ops, v, count);
        SubsLawful(area, n, ChangeAll(m1, sub.rule.ops), b2, sub, 0, v, count);
        LawfulTrans(b, b1, b2, v, count);
        LawfulTrans(b, b2, TransformSubs(area, n, m, b, t, k).1, v, count);
      }
    }
  }

  /** Whatever a proof charges, the books stay balanced and no device pays twice for a once-only bound. */
  lemma TransformLawful(area: AreaNames, n: Node, m: State, b: Books, t: Proof, v: Bound, count: nat)
    requires n < count && OnceOnly(area, v)
    ensures Lawful(b, Transform(area, n, m, b, t).1, v, count)
  {
    if t.Derived? && t.subs != [] {
      ChargeAllLawful(area, n, b, t.rule.ops, v, count);
      var c := ChargeAll(area, n, b, t.rule.ops);
      SubsLawful(area, n, ChangeAll(m, t.rule.ops), c, t, 0, v, count);
      LawfulTrans(b, c, Transform(area, n, m, b, t).1, v, count);
    }
  }
}
