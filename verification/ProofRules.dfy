/** Rules, bounds and proofs of the flight planner, and what it means for a goal to be derivable. */
module ProofRules {
  import opened Common

  type Prop = string
  type Bound = string
  type State = map<Bound, real>

  // ---------- Bounds ----------

  datatype RelOp = LtVX | LtXV | GtVX | GtXV | EqVX

  datatype BoundRel = BoundRel(v: Bound, op: RelOp, x: real) {
    predicate Defined(m: State) { v in m }

    predicate Holds(m: State) {
      v in m &&
      match op
      case LtVX => m[v] < x
      case LtXV => x < m[v]
      case GtVX => m[v] > x
      case GtXV => x > m[v]
      case EqVX => m[v] == x
    }
  }

  predicate AllHold(bs: seq<BoundRel>, m: State) { forall b :: b in bs ==> b.Holds(m) }

  predicate AllDefined(bs: seq<BoundRel>, m: State) { forall b :: b in bs ==> b.Defined(m) }

  // ---------- Rules ----------

  /** One operation of a rule on the states: add, multiply, assign, charge a device once, or add FPGA area. */
  datatype Op =
    | Plus(v: Bound, x: real)
    | Times(v: Bound, x: real)
    | Assign(v: Bound, x: real)
    | Once(v: Bound, x: real)
    | Area(luts: real, brams: real, ffs: real)

  datatype Rule = Rule(props: seq<Prop>, bounds: seq<BoundRel>, ops: seq<Op>)

  datatype Family = Family(name: string, conclusion: Prop, rules: seq<Rule>)

  /** The first rule with the most hypotheses. */
  function Pick(rules: seq<Rule>): (k: nat)
    requires rules != []
    ensures k < |rules|
    ensures forall j :: 0 <= j < |rules| ==> |rules[j].props| <= |rules[k].props|
    ensures forall j :: 0 <= j < k ==> |rules[j].props| < |rules[k].props|
  {
    var n := |rules| - 1;
    if n == 0 then 0
    else
      var k := Pick(rules[..n]);
      if |rules[n].props| > |rules[k].props| then n else k
  }

  /** Where a goal is to be proved: the rules, the node's bounds and properties, and the state. */
  datatype Site = Site(rules: seq<Family>, excluded: seq<string>, required: seq<BoundRel>, assumed: set<Prop>, m: State) {

    /** Families with no rule are refused by an assertion. */
    predicate Valid() { forall f :: f in rules ==> f.rules != [] }

    predicate Usable(f: Family, p: Prop) { f in rules && f.rules != [] && f.name !in excluded && f.conclusion == p }

    function Selected(f: Family): Rule
      requires f.rules != []
    {
      f.rules[Pick(f.rules)]
    }

    /** No bound that could be evaluated is missing from the state. */
    predicate Defined() {
      && AllDefined(required, m)
      && forall f :: f in rules ==> f.rules != [] && AllDefined(Selected(f).bounds, m)
    }

    /** A goal has a derivation of at most this height that uses each family's selected rule. */
    ghost predicate Derivable(p: Prop, height: nat)
      decreases height
    {
      && AllHold(required, m)
      && (p in assumed || exists f :: Usable(f, p) && AllHold(Selected(f).bounds, m) && Supported(Selected(f).props, height))
    }

    /** Every hypothesis is assumed or has a derivation of smaller height. */
    ghost predicate Supported(props: seq<Prop>, height: nat)
      decreases height, 0
    {
      forall q :: q in props ==> q in assumed || (height > 0 && Derivable(q, height - 1))
    }
  }
}
