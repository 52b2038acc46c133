/** The planner's search over partial allocations. */
module Planner {
  import opened Common
  import opened ProofRules
  import opened Prover
  import opened PlanState
  import opened PlanOrder

  datatype Device = Device(name: string, props: set<Prop>, bounds: seq<BoundRel>)

  datatype Link = Link(a: Point, b: Point)

  /** A place to try a segment: how to get there, and where. */
  datatype Target = Target(link: Option<nat>, point: Point)

  datatype Config = Config(
    rules: seq<Family>, excludedRules: seq<string>, excludedDevices: seq<string>,
    nodes: seq<Device>, links: seq<Link>, fs: Node, supporting: seq<Point>,
    aliases: seq<string>, beginning: Point, cfg: seq<Entry>,
    area: AreaNames, initial: State, accumulate: seq<Bound>,
    single: bool, greedy: bool, invert: bool, objs: Objectives)
  {
    function Count(): nat { |nodes| }

    function FirstStep(): string
      requires cfg == [] ==> aliases != []
    {
      if cfg != [] then cfg[0].0 else aliases[0]
    }

    predicate Known(p: Point) { p.node < Count() }

    /**
     * A configuration as it is built: points lie on known devices, the search starts at the focus switch,
     * and the first segment is one of the focus switch's own.
     */
    predicate Valid() {
      && (forall f :: f in rules ==> f.rules != [])
      && (forall l :: l in links ==> Known(l.a) && Known(l.b))
      && (forall p :: p in supporting ==> Known(p))
      && Known(beginning)
      && fs == beginning.node
      && (cfg == [] ==> aliases != [] && aliases[0] != "+")
      && FirstStep() in aliases
      && InitialEntry !in cfg
    }

    function Seed(): map<string, Node> { map s | s in aliases :: fs }

    function SiteAt(n: Node, m: State): Site
      requires n < Count()
    {
      Site(rules, excludedRules, nodes[n].bounds, nodes[n].props, m)
    }

    predicate Joins(l: nat, x: Node, y: Node) {
      l < |links| && ((links[l].a.node == x && links[l].b.node == y) || (links[l].b.node == x && links[l].a.node == y))
    }
  }

  // ---------- What every reachable solution satisfies ----------

  /** A tip in the history proves its own segment at the device the segment is allocated to. */
  ghost predicate Placed(c: Config, alloc: map<string, Node>, t: Tip) {
    && c.Known(t.here)
    && t.goal in alloc
    && alloc[t.goal] == t.here.node
    && t.proof.Some?
    && exists m :: Proves(c.SiteAt(t.here.node, m), t.proof.value, t.goal)
  }

  predicate OpenTip(c: Config, t: Tip) { c.Known(t.here) && (t.entry == InitialEntry ==> t.here.node == c.fs) }

  /** The devices other than the focus switch hold at most one segment each. */
  predicate Apart(c: Config, alloc: map<string, Node>) {
    c.single ==> forall s, t :: s in alloc && t in alloc && alloc[s] == alloc[t] && alloc[s] != c.fs ==> s == t
  }

  ghost predicate AllBalanced(c: Config, b: Books) { forall v :: OnceOnly(c.area, v) ==> Balanced(b, v, c.Count()) }

  ghost predicate Good(c: Config, s: Solution) {
    && (forall t :: t in s.tips ==> OpenTip(c, t))
    && (forall t :: t in s.states ==> Placed(c, s.alloc, t))
    && (forall n :: n in s.alloc ==> s.alloc[n] < c.Count())
    && (forall n :: n in c.aliases ==> n in s.alloc && s.alloc[n] == c.fs)
    && Apart(c, s.alloc)
    && AllBalanced(c, s.books)
  }

  /** Later solutions keep every allocation, the history and every once-only charge. */
  ghost predicate Extends(c: Config, s: Solution, t: Solution) {
    && (forall n :: n in s.alloc ==> n in t.alloc && t.alloc[n] == s.alloc[n])
    && s.states <= t.states
    && forall v, n: nat | OnceOnly(c.area, v) && s.books.Usage(n, v) != 0.0 :: t.books.Usage(n, v) == s.books.Usage(n, v)
  }

  ghost predicate AllGood(c: Config, s: Solution, ts: seq<Solution>) {
    forall t :: t in ts ==> Good(c, t) && Extends(c, s, t)
  }

  // ---------- Small pieces ----------

  function AddMaps(m: State, more: State): State {
    map v | v in m.Keys + more.Keys :: Get(m, v) + Get(more, v)
  }

  function Accumulate(m: State, bounds: seq<Bound>, from: State): State
    decreases |bounds|
  {
    if bounds == [] then m
    else Accumulate(m, bounds[..|bounds| - 1], from)[bounds[|bounds| - 1] := Get(from, bounds[|bounds| - 1])]
  }

  /** The bounds of the device must hold of the packet, of the solution and of the device itself. */
  method CheckDevice(bs: seq<BoundRel>, m1: State, m2: State, m3: State) returns (r: Result<bool>)
    ensures r.Ok? ==> (r.value <==> AllHold(bs, m1) && AllHold(bs, m2) && AllHold(bs, m3))
    ensures r.Thrown? ==> !(AllDefined(bs, m1) && AllDefined(bs, m2) && AllDefined(bs, m3))
  {
    for i := 0 to |bs|
      invariant forall j :: 0 <= j < i ==> bs[j].Holds(m1) && bs[j].Holds(m2) && bs[j].Holds(m3)
    {
      if bs[i].v !in m1 { assert !bs[i].Defined(m1); return Thrown; }
      if !bs[i].Holds(m1) { return Ok(false); }
      if bs[i].v !in m2 { assert !bs[i].Defined(m2); return Thrown; }
      if !bs[i].Holds(m2) { return Ok(false); }
      if bs[i].v !in m3 { assert !bs[i].Defined(m3); return Thrown; }
      if !bs[i].Holds(m3) { return Ok(false); }
    }
    return Ok(true);
  }

  /** A link followed from here. */
  function Along(c: Config, l: nat, here: Node): Target
    requires l < |c.links|
  {
    Target(Some(l), if c.links[l].a.node == here then c.links[l].b else c.links[l].a)
  }

  /** A target is the far end of a link from here to the device. */
  predicate IsAlong(c: Config, here: Node, node: Node, t: Target) {
    && t.link.Some?
    && c.Joins(t.link.value, here, node)
    && t == Along(c, t.link.value, here)
    && t.point.node == node
    && c.Known(t.point)
  }

  predicate Before(t: Target, u: Target) { t.link.Some? && u.link.Some? && t.link.value < u.link.value }

  /** The links between here and a device, each with its far end: all of them, each once and in order. */
  method TargetsAt(c: Config, here: Node, node: Node) returns (ts: seq<Target>)
    requires c.Valid()
    ensures forall t :: t in ts ==> IsAlong(c, here, node, t)
    ensures forall l :: c.Joins(l, here, node) ==> Along(c, l, here) in ts
    ensures forall i, j :: 0 <= i < j < |ts| ==> Before(ts[i], ts[j])
  {
    ts := [];
    for i := 0 to |c.links|
      invariant forall t :: t in ts ==> IsAlong(c, here, node, t) && t.link.value < i
      invariant forall l: nat :: c.Joins(l, here, node) && l < i ==> Along(c, l, here) in ts
      invariant forall i, j :: 0 <= i < j < |ts| ==> Before(ts[i], ts[j])
    {
      var l := c.links[i];
      assert l in c.links;
      if (l.a.node == here && l.b.node == node) || (l.a.node == node && l.b.node == here) {
        assert forall j :: 0 <= j < |ts| ==> ts[j] in ts;
        ts := ts + [Target(Some(i), if l.a.node == here then l.b else l.a)];
      }
    }
  }

  /** The links from here to any of the supporting devices. */
  method TargetsAround(c: Config, here: Node) returns (ts: seq<Target>)
    requires c.Valid()
    ensures forall t :: t in ts ==> exists p :: p in c.supporting && IsAlong(c, here, p.node, t)
    ensures forall p, l :: p in c.supporting && c.Joins(l, here, p.node) ==> Along(c, l, here) in ts
  {
    ts := [];
    for i := 0 to |c.supporting|
      invariant forall t :: t in ts ==> exists p :: p in c.supporting && IsAlong(c, here, p.node, t)
      invariant forall p, l :: p in c.supporting[..i] && c.Joins(l, here, p.node) ==> Along(c, l, here) in ts
    {
      var more := TargetsAt(c, here, c.supporting[i].node);
      assert c.supporting[i] in c.supporting;
      ts := ts + more;
    }
  }

  // ---------- Taking one proof ----------

  /** The solution that follows from proving a segment at a point. */
  function Advance(c: Config, s: Solution, tip: Tip, goal: Prop, to: Target, entry: Entry, t: Proof): Solution {
    var (m, books) := Transform(c.area, to.point.node, tip.m, s.books, t);
    var next := Tip(to.link, to.point, entry, goal, m, Some(t));
    s.(tips := s.tips + [next], alloc := s.alloc[goal := to.point.node], states := s.states + [next], books := books)
  }

  /** The segment is new, or it stays where it is: the assertion in try_Prop. */
  predicate Stays(s: Solution, goal: Prop, n: Node) { goal in s.alloc ==> s.alloc[goal] == n }

  predicate MayUse(c: Config, s: Solution, n: Node) {
    !(c.single && n != c.fs && exists g :: g in s.alloc && s.alloc[g] == n)
  }

  lemma AdvanceBooks(c: Config, s: Solution, n: Node, m: State, t: Proof)
    requires n < c.Count()
    ensures var b := Transform(c.area, n, m, s.books, t).1;
      forall v | OnceOnly(c.area, v) :: Lawful(s.books, b, v, c.Count())
  {
    forall v | OnceOnly(c.area, v)
      ensures Lawful(s.books, Transform(c.area, n, m, s.books, t).1, v, c.Count())
    {
      TransformLawful(c.area, n, m, s.books, t, v, c.Count());
    }
  }

  lemma AdvanceGood(c: Config, s: Solution, tip: Tip, goal: Prop, to: Target, entry: Entry, t: Proof)
    requires Good(c, s) && c.Known(to.point) && Stays(s, goal, to.point.node) && MayUse(c, s, to.point.node)
    requires entry != InitialEntry && Proves(c.SiteAt(to.point.node, tip.m), t, goal)
    ensures Good(c, Advance(c, s, tip, goal, to, entry, t)) && Extends(c, s, Advance(c, s, tip, goal, to, entry, t))
  {
    var r := Advance(c, s, tip, goal, to, entry, t);
    AdvanceBooks(c, s, to.point.node, tip.m, t);
    forall x | x in r.states ensures Placed(c, r.alloc, x) {
      if x in s.states { assert Placed(c, s.alloc, x); }
    }
    forall x | x in r.tips ensures OpenTip(c, x) {
      if x in s.tips { assert OpenTip(c, x); }
    }
    forall v | OnceOnly(c.area, v) ensures Balanced(r.books, v, c.Count()) {
      assert Lawful(s.books, r.books, v, c.Count());
    }
  }
}
