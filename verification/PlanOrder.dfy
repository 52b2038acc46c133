/** Partial solutions of the planner and their ordering by dominance. */
module PlanOrder {
  import opened Common
  import opened ProofRules
  import opened Prover
  import opened PlanState

  datatype Point = Point(node: Node, port: string, bounds: seq<BoundRel>)

  type Entry = (string, string)

  const InitialEntry: Entry := ("+", "+")
  const Terminal: string := "(terminal)"

  datatype Tip = Tip(link: Option<nat>, here: Point, entry: Entry, goal: Prop, m: State, proof: Option<Proof>) {
    predicate IsTerminal() { entry.1 == Terminal }
  }

  /** A partial solution: open tips, allocation of segments, the tips so far, and the usage of links and devices. */
  datatype Solution = Solution(tips: seq<Tip>, alloc: map<string, Node>, states: seq<Tip>, linkM: map<(nat, bool), State>, books: Books)

  function TerminalTips(ts: seq<Tip>): seq<Tip> {
    if ts == [] then []
    else if ts[0].IsTerminal() then [ts[0]] + TerminalTips(ts[1..])
    else TerminalTips(ts[1..])
  }

  // ---------- Dominance ----------

  datatype Obj = Min | Max

  type Objectives = seq<(Bound, Obj)>

  predicate LeIn(o: (Bound, Obj), m1: State, m2: State) {
    if o.1 == Min then Get(m1, o.0) <= Get(m2, o.0) else Get(m1, o.0) >= Get(m2, o.0)
  }

  predicate LeState(objs: Objectives, m1: State, m2: State) { forall o :: o in objs ==> LeIn(o, m1, m2) }

  predicate Le(objs: Objectives, s1: Solution, s2: Solution) {
    var t1, t2 := TerminalTips(s1.states), TerminalTips(s2.states);
    && |t1| == |t2|
    && (forall i :: 0 <= i < |t1| ==> LeState(objs, t1[i].m, t2[i].m))
    && LeState(objs, s1.books.solM, s2.books.solM)
  }

  /** Strictly better in the dominance order. */
  predicate Dominates(objs: Objectives, s1: Solution, s2: Solution) { Le(objs, s1, s2) && !Le(objs, s2, s1) }

  lemma LeStateTrans(objs: Objectives, a: State, b: State, c: State)
    requires LeState(objs, a, b) && LeState(objs, b, c)
    ensures LeState(objs, a, c)
  {
    forall o | o in objs ensures LeIn(o, a, c) { assert LeIn(o, a, b) && LeIn(o, b, c); }
  }

  lemma LeTrans(objs: Objectives, a: Solution, b: Solution, c: Solution)
    requires Le(objs, a, b) && Le(objs, b, c)
    ensures Le(objs, a, c)
  {
    var ta, tb, tc := TerminalTips(a.states), TerminalTips(b.states), TerminalTips(c.states);
    forall i | 0 <= i < |ta| ensures LeState(objs, ta[i].m, tc[i].m) { LeStateTrans(objs, ta[i].m, tb[i].m, tc[i].m); }
    LeStateTrans(objs, a.books.solM, b.books.solM, c.books.solM);
  }

  method CompareStates(objs: Objectives, m1: State, m2: State) returns (le: bool)
    ensures le <==> LeState(objs, m1, m2)
  {
    le := true;
    for i := 0 to |objs|
      invariant le && forall j :: 0 <= j < i ==> LeIn(objs[j], m1, m2)
    {
      if objs[i].1 == Min {
        if Get(m1, objs[i].0) > Get(m2, objs[i].0) { assert !LeIn(objs[i], m1, m2); le := false; return; }
      } else {
        if Get(m1, objs[i].0) < Get(m2, objs[i].0) { assert !LeIn(objs[i], m1, m2); le := false; return; }
      }
    }
  }

  /** Solutions with different numbers of terminal tips are refused by an assertion. */
  predicate Comparable(s1: Solution, s2: Solution) { |TerminalTips(s1.states)| == |TerminalTips(s2.states)| }

  method Compare(objs: Objectives, s1: Solution, s2: Solution) returns (r: Result<bool>)
    ensures r.Ok? <==> Comparable(s1, s2)
    ensures r.Ok? ==> (r.value <==> Le(objs, s1, s2))
  {
    var t1, t2 := TerminalTips(s1.states), TerminalTips(s2.states);
    if |t1| != |t2| { return Thrown; }
    for i := 0 to |t1|
      invariant forall j :: 0 <= j < i ==> LeState(objs, t1[j].m, t2[j].m)
    {
      var le := CompareStates(objs, t1[i].m, t2[i].m);
      if !le { return Ok(false); }
    }
    var le := CompareStates(objs, s1.books.solM, s2.books.solM);
    return Ok(le);
  }

  // ---------- Ordering ----------

  /** No later solution strictly dominates an earlier one. */
  predicate Ordered(objs: Objectives, ss: seq<Solution>) {
    forall i, j :: 0 <= i < j < |ss| ==> !Dominates(objs, ss[j], ss[i])
  }

  function InsertAt(ss: seq<Solution>, k: nat, s: Solution): seq<Solution>
    requires k <= |ss|
  {
    ss[..k] + [s] + ss[k..]
  }

  /** Inserting before the first solution it is at most keeps the order, although the order is only partial. */
  lemma InsertOrdered(objs: Objectives, ss: seq<Solution>, k: nat, s: Solution)
    requires Ordered(objs, ss) && k <= |ss|
    requires forall i :: 0 <= i < k ==> !Le(objs, s, ss[i])
    requires k < |ss| ==> Le(objs, s, ss[k])
    ensures Ordered(objs, InsertAt(ss, k, s))
  {
    var r := InsertAt(ss, k, s);
    forall i, j | 0 <= i < j < |r| ensures !Dominates(objs, r[j], r[i]) {
      if i == k && Le(objs, r[j], s) {
        var x := ss[j - 1];
        LeTrans(objs, x, s, ss[k]);
        if j - 1 > k {
          assert !Dominates(objs, x, ss[k]);
          LeTrans(objs, s, ss[k], x);
        }
      } else if i != k && j != k {
        assert r[i] == ss[if i < k then i else i - 1] && r[j] == ss[if j < k then j else j - 1];
      }
    }
  }

  lemma InsertPermutes(ss: seq<Solution>, k: nat, s: Solution)
    requires k <= |ss|
    ensures multiset(InsertAt(ss, k, s)) == multiset(ss) + multiset{s}
  {
    assert ss == ss[..k] + ss[k..];
  }

  /** One solution is put into its place. */
  method Insert(objs: Objectives, ss: seq<Solution>, s: Solution) returns (r: Result<seq<Solution>>)
    requires Ordered(objs, ss)
    ensures r.Ok? ==> Ordered(objs, r.value) && multiset(r.value) == multiset(ss) + multiset{s}
    ensures r.Thrown? ==> exists x :: x in ss && !Comparable(s, x)
  {
    for k := 0 to |ss|
      invariant forall i :: 0 <= i < k ==> !Le(objs, s, ss[i])
    {
      var le := Compare(objs, s, ss[k]);
      if le.Thrown? { return Thrown; }
      if le.value {
        InsertOrdered(objs, ss, k, s);
        InsertPermutes(ss, k, s);
        return Ok(InsertAt(ss, k, s));
      }
    }
    InsertOrdered(objs, ss, |ss|, s);
    InsertPermutes(ss, |ss|, s);
    assert InsertAt(ss, |ss|, s) == ss + [s];
    return Ok(ss + [s]);
  }

  function Reversed(ss: seq<Solution>): (r: seq<Solution>)
    ensures |r| == |ss| && forall i :: 0 <= i < |ss| ==> r[i] == ss[|ss| - 1 - i]
    ensures multiset(r) == multiset(ss)
  {
    if ss == [] then [] else
      assert ss == [ss[0]] + ss[1..];
      Reversed(ss[1..]) + [ss[0]]
  }

  /** All pairs of solutions can be compared. */
  predicate Uniform(ss: seq<Solution>) { forall x, y :: x in ss && y in ss ==> Comparable(x, y) }

  /** orderSolutions: a permutation in which no later solution strictly dominates an earlier one, or its reverse. */
  method OrderSolutions(objs: Objectives, ss: seq<Solution>, invert: bool) returns (r: Result<seq<Solution>>)
    ensures r.Ok? ==> multiset(r.value) == multiset(ss)
    ensures r.Ok? ==> if invert then Ordered(objs, Reversed(r.value)) else Ordered(objs, r.value)
    ensures r.Thrown? ==> !Uniform(ss)
  {
    var result: seq<Solution> := [];
    for i := 0 to |ss|
      invariant Ordered(objs, result) && multiset(result) == multiset(ss[..i])
    {
      assert ss[..i + 1] == ss[..i] + [ss[i]];
      var next := Insert(objs, result, ss[i]);
      if next.Thrown? {
        var x :| x in result && !Comparable(ss[i], x);
        assert x in multiset(ss[..i]);
        return Thrown;
      }
      result := next.value;
    }
    assert ss[..|ss|] == ss;
    if invert {
      assert Reversed(Reversed(result)) == result;
      return Ok(Reversed(result));
    }
    return Ok(result);
  }

  /** The greedy choice is never strictly dominated by any input; inverted, it strictly dominates none. */
  lemma FrontUndominated(objs: Objectives, ss: seq<Solution>, r: seq<Solution>, s: Solution)
    requires multiset(r) == multiset(ss) && s in ss
    ensures Ordered(objs, r) ==> r != [] && !Dominates(objs, s, r[0])
    ensures Ordered(objs, Reversed(r)) ==> r != [] && !Dominates(objs, r[0], s)
  {
    assert s in multiset(r);
    var i :| 0 <= i < |r| && r[i] == s;
    if Ordered(objs, Reversed(r)) {
      assert Reversed(r)[|r| - 1] == r[0] && Reversed(r)[|r| - 1 - i] == s;
    }
  }
}
