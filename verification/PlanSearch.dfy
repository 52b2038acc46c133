/** The planner's loop: tips are advanced, candidates multiply, and every one of them keeps the invariant. */
module PlanSearch {
  import opened Common
  import opened ProofRules
  import opened Prover
  import opened PlanState
  import opened PlanOrder
  import opened Planner

  datatype Outcome = Complete | OutOfCycles

  function InitialTip(c: Config): Tip
    requires c.Valid()
  {
    Tip(None, c.beginning, InitialEntry, c.FirstStep(), c.initial, None)
  }

  function Initial(c: Config): Solution
    requires c.Valid()
  {
    Solution([InitialTip(c)], c.Seed(), [], map[], Books(map[], map[]))
  }

  lemma {:induction false} SumEmpty(v: Bound, count: nat)
    ensures Books(map[], map[]).Sum(v, count) == 0.0
    decreases count
  {
    if count > 0 { SumEmpty(v, count - 1); }
  }

  lemma InitialGood(c: Config)
    requires c.Valid()
    ensures Good(c, Initial(c))
  {
    forall v ensures Balanced(Books(map[], map[]), v, c.Count()) { SumEmpty(v, c.Count()); }
  }

  /** The edges of the control flow graph that leave a segment. */
  function NextStep(c: Config, from: string): (r: seq<Entry>)
    requires c.Valid()
    ensures forall e :: e in r ==> e != InitialEntry
    ensures from == c.FirstStep() ==> forall e :: e in r ==> e.0 == c.FirstStep()
  {
    if c.cfg == [] then [(c.aliases[0], "+")] else Leaving(c.cfg, from)
  }

  function Leaving(cfg: seq<Entry>, from: string): (r: seq<Entry>)
    ensures forall e :: e in r <==> e in cfg && e.0 == from
  {
    if cfg == [] then []
    else if cfg[0].0 == from then [cfg[0]] + Leaving(cfg[1..], from)
    else Leaving(cfg[1..], from)
  }

  /** Every new candidate is good and extends one of the old. */
  ghost predicate Descend(c: Config, olds: seq<Solution>, news: seq<Solution>) {
    forall t :: t in news ==> Good(c, t) && exists s :: s in olds && Extends(c, s, t)
  }

  /** The generations of candidates of a run. */
  ghost predicate IsRun(c: Config, run: seq<seq<Solution>>) {
    forall i :: 0 <= i < |run| - 1 ==> Descend(c, run[i], run[i + 1])
  }

  lemma RunAppend(c: Config, run: seq<seq<Solution>>, next: seq<Solution>)
    requires IsRun(c, run) && run != [] && Descend(c, run[|run| - 1], next)
    ensures IsRun(c, run + [next])
  {
  }

  lemma DescendFewer(c: Config, olds: seq<Solution>, news: seq<Solution>, kept: seq<Solution>)
    requires Descend(c, olds, news) && forall s :: s in kept ==> s in news
    ensures Descend(c, olds, kept)
  {
  }

  lemma ExtendsTrans(c: Config, s: Solution, t: Solution, u: Solution)
    requires Extends(c, s, t) && Extends(c, t, u)
    ensures Extends(c, s, u)
  {
    forall v, n: nat | OnceOnly(c.area, v) && s.books.Usage(n, v) != 0.0
      ensures u.books.Usage(n, v) == s.books.Usage(n, v)
    {
      assert t.books.Usage(n, v) == s.books.Usage(n, v);
    }
  }

  /**
   * Over a whole run: every candidate has an ancestor in every earlier generation and keeps all of its allocations,
   * so no segment is ever moved, and keeps all of its once-only charges, so no device is charged twice.
   */
  lemma {:induction false} NeverMoved(c: Config, run: seq<seq<Solution>>, i: nat, j: nat, u: Solution) returns (s: Solution)
    requires IsRun(c, run) && i < j < |run| && u in run[j]
    ensures s in run[i] && Extends(c, s, u) && Good(c, u)
    decreases j
  {
    assert Descend(c, run[j - 1], run[j]);
    var t :| t in run[j - 1] && Extends(c, t, u);
    if j - 1 == i {
      s := t;
    } else {
      s := NeverMoved(c, run, i, j - 1, t);
      ExtendsTrans(c, s, t, u);
    }
  }

  // ---------- Trying a segment at a target ----------

  /** What the packet has when it arrives: its own state, and over a link what already stands there. */
  function Arriving(c: Config, s: Solution, tip: Tip, to: Target): State
    requires to.link.Some? ==> to.link.value < |c.links|
  {
    if to.link.None? then tip.m else AddMaps(tip.m, GetIn(s.linkM, (to.link.value, Inverted(c, tip, to.link.value))))
  }

  predicate Inverted(c: Config, tip: Tip, l: nat)
    requires l < |c.links|
  {
    tip.here.node == c.links[l].b.node
  }

  /** The solution after its link has been charged. */
  function Crossed(c: Config, s: Solution, tip: Tip, to: Target): Solution
    requires to.link.Some? && to.link.value < |c.links|
  {
    var key := (to.link.value, Inverted(c, tip, to.link.value));
    s.(linkM := s.linkM[key := Accumulate(GetIn(s.linkM, key), c.accumulate, Arriving(c, s, tip, to))])
  }

  /** The target takes the packet: its bounds hold, it is not taken and it is not excluded. */
  predicate Fits(c: Config, s: Solution, to: Target, m: State)
    requires c.Known(to.point)
  {
    var device := c.nodes[to.point.node];
    && AllHold(to.point.bounds, m)
    && AllHold(device.bounds, m)
    && AllHold(device.bounds, s.books.solM)
    && AllHold(device.bounds, GetIn(s.books.nodeM, to.point.node))
    && MayUse(c, s, to.point.node)
    && device.name !in c.excludedDevices
  }

  /** All the bounds that the checks look at are defined. */
  predicate Checkable(c: Config, s: Solution, to: Target, m: State)
    requires c.Known(to.point)
  {
    var device := c.nodes[to.point.node];
    && AllDefined(to.point.bounds, m)
    && AllDefined(device.bounds, m)
    && AllDefined(device.bounds, s.books.solM)
    && AllDefined(device.bounds, GetIn(s.books.nodeM, to.point.node))
  }

  class Search {
    const c: Config
    var candidates: seq<Solution>
    var solutions: seq<Solution>

    constructor (config: Config)
      requires config.Valid()
      ensures c == config && candidates == [Initial(c)] && solutions == [] && Valid()
    {
      c := config;
      candidates, solutions := [Initial(config)], [];
      InitialGood(config);
    }

    /** What the packet brings over a link: its state and what already stands on the link. */
    method LinkState(s: Solution, tip: Tip, to: Target) returns (m: State)
      requires to.link.Some? ==> c.Joins(to.link.value, tip.here.node, to.point.node)
      ensures m == Arriving(c, s, tip, to)
    {
      m := tip.m;
      if to.link.Some? {
        var inverted := tip.here.node == c.links[to.link.value].b.node;
        m := AddMaps(m, GetIn(s.linkM, (to.link.value, inverted)));
      }
    }

    /** The checks before a proof is tried. */
    method CanProceed(s: Solution, to: Target, m: State) returns (r: Result<bool>)
      requires c.Known(to.point)
      ensures r == Ok(true) <==> Fits(c, s, to, m)
      ensures r.Thrown? ==> !Checkable(c, s, to, m)
    {
      var port := CheckBounds(to.point.bounds, m);
      if port.Thrown? { return Thrown; }
      var node := CheckDevice(c.nodes[to.point.node].bounds, m, s.books.solM, GetIn(s.books.nodeM, to.point.node));
      if node.Thrown? { return Thrown; }
      var excluded := IsExcluded(c.excludedDevices, c.nodes[to.point.node].name);
      return Ok(port.value && node.value && MayUse(c, s, to.point.node) && !excluded);
    }

    /** try_Prop: one new solution for every proof of the segment at the target. */
    method TryProp(s: Solution, tip: Tip, goal: Prop, to: Target, entry: Entry)
      returns (r: Result<seq<Solution>>, s2: Solution, ghost proofs: seq<Proof>)
      requires c.Valid() && Good(c, s) && c.Known(to.point) && entry != InitialEntry
      requires Stays(s, goal, to.point.node)
      requires to.link.Some? ==> c.Joins(to.link.value, tip.here.node, to.point.node)
      ensures r.Ok? ==> AllGood(c, s, r.value)
      ensures AllProve(c.SiteAt(to.point.node, tip.m), proofs, goal)
      ensures r.Ok? && c.SiteAt(to.point.node, tip.m).Derivable(goal, MaxDepth) && Fits(c, s, to, Arriving(c, s, tip, to)) ==> proofs != []
      ensures !Fits(c, s, to, Arriving(c, s, tip, to)) ==> proofs == []
      ensures s2 == if proofs != [] && to.link.Some? then Crossed(c, s, tip, to) else s
      ensures r.Ok? ==> |r.value| == |proofs| && forall i :: 0 <= i < |proofs| ==>
        r.value[i] == Advance(c, s2, tip, goal, to, entry, proofs[i])
      ensures r.Thrown? ==> !Checkable(c, s, to, Arriving(c, s, tip, to)) || !c.SiteAt(to.point.node, tip.m).Defined()
    {
      s2, proofs := s, [];
      var m := LinkState(s, tip, to);
      var ok := CanProceed(s, to, m);
      if ok.Thrown? { return Thrown, s2, proofs; }
      if !ok.value { return Ok([]), s2, proofs; }
      var found := ProveAt(to.point.node, tip.m, goal);
      if found.Thrown? { return Thrown, s2, proofs; }
      proofs := found.value;
      if found.value != [] && to.link.Some? {
        var key := (to.link.value, tip.here.node == c.links[to.link.value].b.node);
        s2 := s.(linkM := s.linkM[key := Accumulate(GetIn(s.linkM, key), c.accumulate, m)]);
      }
      var out := AdvanceAll(s2, tip, goal, to, entry, found.value);
      return Ok(out), s2, proofs;
    }

    method ProveAt(n: Node, m: State, goal: Prop) returns (r: Result<seq<Proof>>)
      requires c.Valid() && n < c.Count()
      ensures r.Ok? ==> AllProve(c.SiteAt(n, m), r.value, goal)
      ensures r.Ok? && c.SiteAt(n, m).Derivable(goal, MaxDepth) ==> r.value != []
      ensures r.Thrown? ==> !c.SiteAt(n, m).Defined()
    {
      var prover := new Prover(c.SiteAt(n, m));
      r := prover.Prove(0, goal);
    }

    method AdvanceAll(s: Solution, tip: Tip, goal: Prop, to: Target, entry: Entry, proofs: seq<Proof>) returns (out: seq<Solution>)
      requires Good(c, s) && c.Known(to.point) && entry != InitialEntry
      requires Stays(s, goal, to.point.node) && MayUse(c, s, to.point.node)
      requires AllProve(c.SiteAt(to.point.node, tip.m), proofs, goal)
      ensures AllGood(c, s, out)
      ensures |out| == |proofs| && forall i :: 0 <= i < |out| ==> out[i] == Advance(c, s, tip, goal, to, entry, proofs[i])
    {
      out := [];
      for i := 0 to |proofs|
        invariant AllGood(c, s, out)
        invariant |out| == i && forall j :: 0 <= j < i ==> out[j] == Advance(c, s, tip, goal, to, entry, proofs[j])
      {
        AdvanceGood(c, s, tip, goal, to, entry, proofs[i]);
        out := out + [Advance(c, s, tip, goal, to, entry, proofs[i])];
      }
    }

    /** try_PossibleTargets. */
    method TryTargets(s: Solution, tip: Tip, goal: Prop, targets: seq<Target>, entry: Entry) returns (r: Result<seq<Solution>>, s2: Solution)
      requires c.Valid() && Good(c, s) && entry != InitialEntry
      requires forall t :: t in targets ==> c.Known(t.point) && Stays(s, goal, t.point.node)
      requires forall t :: t in targets && t.link.Some? ==> c.Joins(t.link.value, tip.here.node, t.point.node)
      ensures r.Ok? ==> AllGood(c, s, r.value)
      ensures s2 == s.(linkM := s2.linkM)
    {
      s2 := s;
      var out: seq<Solution> := [];
      for i := 0 to |targets|
        invariant AllGood(c, s, out) && s2 == s.(linkM := s2.linkM)
      {
        var more;
        ghost var proofs;
        more, s2, proofs := TryProp(s2, tip, goal, targets[i], entry);
        if more.Thrown? { return Thrown, s2; }
        out := out + more.value;
      }
      return Ok(out), s2;
    }

    /** Where the segment of an edge can run: anywhere reachable if it is new, at its own device if not. */
    method Targets(s: Solution, here: Point, goal: Prop) returns (ts: seq<Target>)
      requires c.Valid() && Good(c, s) && c.Known(here)
      ensures forall t :: t in ts ==> c.Known(t.point) && Stays(s, goal, t.point.node)
      ensures forall t :: t in ts && t.link.Some? ==> c.Joins(t.link.value, here.node, t.point.node)
      ensures Stays(s, goal, here.node) ==> Target(None, here) in ts
      ensures goal !in s.alloc && here.node == c.fs ==>
        forall p, l :: p in c.supporting && c.Joins(l, here.node, p.node) ==> Along(c, l, here.node) in ts
      ensures goal in s.alloc && s.alloc[goal] != here.node ==>
        forall l :: c.Joins(l, here.node, s.alloc[goal]) ==> Along(c, l, here.node) in ts
    {
      var stay := [Target(None, here)];
      if goal !in s.alloc {
        ts := stay;
        if here.node == c.fs {
          var around := TargetsAround(c, here.node);
          ts := ts + around;
        }
      } else if s.alloc[goal] == here.node {
        ts := stay;
      } else {
        ts := TargetsAt(c, here.node, s.alloc[goal]);
      }
    }

    method NextEdges(s: Solution, tip: Tip, steps: seq<Entry>) returns (r: Result<seq<Solution>>)
      requires c.Valid() && Good(c, s) && c.Known(tip.here) && InitialEntry !in steps
      ensures r.Ok? ==> AllGood(c, s, r.value)
    {
      var s2, out: seq<Solution> := s, [];
      for i := 0 to |steps|
        invariant AllGood(c, s, out) && s2 == s.(linkM := s2.linkM)
      {
        var targets := Targets(s2, tip.here, steps[i].0);
        var more;
        assert steps[i] in steps;
        more, s2 := TryTargets(s2, tip, steps[i].0, targets, steps[i]);
        if more.Thrown? { return Thrown; }
        out := out + more.value;
      }
      return Ok(out);
    }

    /** The first step: the proofs of all edges are merged into the first solution found. */
    method NextInitial(s: Solution, tip: Tip) returns (r: Result<seq<Solution>>)
      requires c.Valid() && Good(c, s) && c.Known(tip.here) && tip.here.node == c.fs
      ensures r.Ok? ==> AllGood(c, s, r.value)
    {
      var steps := NextStep(c, c.FirstStep());
      var first: Option<Solution> := None;
      var s2 := s;
      for i := 0 to |steps|
        invariant first.Some? ==> Good(c, first.value) && Extends(c, s, first.value)
        invariant s2 == s.(linkM := s2.linkM)
      {
        var options;
        assert steps[i] in steps;
        ghost var proofs;
        options, s2, proofs := TryProp(s2, tip, steps[i].0, Target(None, tip.here), steps[i]);
        if options.Thrown? { return Thrown; }
        first := Merge(s, first, options.value);
      }
      if first.None? { return Thrown; }
      return Ok([if c.cfg == [] then first.value.(tips := []) else first.value]);
    }

    method Merge(ghost s: Solution, first: Option<Solution>, options: seq<Solution>) returns (r: Option<Solution>)
      requires first.Some? ==> Good(c, first.value) && Extends(c, s, first.value)
      requires AllGood(c, s, options)
      ensures r.Some? ==> Good(c, r.value) && Extends(c, s, r.value)
      ensures r.None? <==> first.None? && options == []
    {
      r := first;
      for i := 0 to |options|
        invariant r.Some? ==> Good(c, r.value) && Extends(c, s, r.value)
        invariant r.None? <==> first.None? && i == 0
      {
        var x := options[i];
        assert x in options;
        if r.None? {
          r := Some(x);
        } else if x.tips != [] {
          r := Some(r.value.(tips := r.value.tips + [x.tips[|x.tips| - 1]]));
        }
      }
    }

    /** Tip::next for the k-th open tip of a solution. */
    method Next(s: Solution, k: nat) returns (r: Result<seq<Solution>>)
      requires c.Valid() && Good(c, s) && k < |s.tips|
      ensures r.Ok? ==> AllGood(c, s, r.value)
    {
      var tip := s.tips[k];
      assert tip in s.tips;
      var s1 := s.(tips := s.tips[..k] + s.tips[k + 1..]);
      if tip.entry == InitialEntry {
        r := NextInitial(s1, tip);
        return;
      }
      var steps := if c.cfg != [] then NextStep(c, tip.entry.1) else [];
      if steps == [] {
        if tip.entry.1 == Terminal { return Ok([s1]); }
        steps := [(tip.entry.1, Terminal)];
      }
      r := NextEdges(s1, tip, steps);
    }

    ghost predicate Valid()
      reads this
    {
      && c.Valid()
      && (forall s :: s in candidates ==> Good(c, s))
      && (forall s :: s in solutions ==> Good(c, s) && s.tips == [])
    }

    /** One cycle over all candidates. */
    method Cycle() returns (r: Result<seq<Solution>>)
      requires Valid()
      modifies this`solutions
      ensures Valid() && old(solutions) <= solutions
      ensures r.Ok? ==> Descend(c, candidates, r.value)
    {
      var news: seq<Solution> := [];
      for i := 0 to |candidates|
        invariant Valid() && old(solutions) <= solutions && Descend(c, candidates, news)
      {
        var s := candidates[i];
        assert s in candidates;
        if s.tips == [] {
          solutions := solutions + [s];
        } else {
          var k: nat :| k < |s.tips|;
          var more := Next(s, k);
          if more.Thrown? { return Thrown; }
          news := news + more.value;
        }
      }
      return Ok(news);
    }

    /** In greedy mode only the front of the ordering survives. */
    method Prune(news: seq<Solution>) returns (r: Result<seq<Solution>>)
      ensures r.Ok? ==> forall s :: s in r.value ==> s in news
      ensures r.Ok? && c.greedy && news != [] ==>
        && |r.value| == 1
        && forall s :: s in news ==> if c.invert then !Dominates(c.objs, r.value[0], s) else !Dominates(c.objs, s, r.value[0])
    {
      if news == [] || !c.greedy { return Ok(news); }
      var sorted := OrderSolutions(c.objs, news, c.invert);
      if sorted.Thrown? { return Thrown; }
      forall s | s in news
        ensures sorted.value != []
        ensures if c.invert then !Dominates(c.objs, sorted.value[0], s) else !Dominates(c.objs, s, sorted.value[0])
      {
        FrontUndominated(c.objs, news, sorted.value, s);
      }
      assert news[0] in news;
      assert sorted.value[0] in multiset(news);
      return Ok([sorted.value[0]]);
    }

    method Generation() returns (ok: bool)
      requires Valid()
      modifies this
      ensures Valid() && old(solutions) <= solutions
      ensures if ok then Descend(c, old(candidates), candidates) else candidates == old(candidates)
    {
      var news := Cycle();
      if news.Thrown? { return false; }
      var kept := Prune(news.value);
      if kept.Thrown? { return false; }
      DescendFewer(c, candidates, news.value, kept.value);
      candidates := kept.value;
      return true;
    }

    /** Planner::plan: every candidate and every solution it ever holds satisfies the invariant. */
    method Plan(cycles: nat) returns (r: Result<Outcome>, ghost run: seq<seq<Solution>>)
      requires Valid()
      modifies this
      ensures Valid() && old(solutions) <= solutions
      ensures IsRun(c, run) && run != [] && run[0] == old(candidates) && run[|run| - 1] == candidates
      ensures r.Ok? ==> candidates == [] || r.value == OutOfCycles
    {
      var left := cycles;
      run := [candidates];
      while candidates != [] && left > 0
        invariant Valid() && old(solutions) <= solutions
        invariant IsRun(c, run) && run != [] && run[0] == old(candidates) && run[|run| - 1] == candidates
        decreases left
      {
        left := left - 1;
        var ok := Generation();
        if !ok { return Thrown, run; }
        RunAppend(c, run, candidates);
        run := run + [candidates];
      }
      return Ok(if left > 0 then Complete else OutOfCycles), run;
    }
  }
}
