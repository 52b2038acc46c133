/** The control spanning tree: a depth-first traversal with a shared list of visited switches, and index allocation over it. */
module SpanningTree {
  import opened Common

  type Switch = string
  type Segment = string

  /** One control state of a switch: the segment it leads to, and the output port. */
  datatype Hop = Hop(seg: Segment, port: int)

  /**
   * What the traversal reads: for each switch the next segments with their (state, port) pairs,
   * the progression from segment to segment, and the interfaces (port, neighbour).
   */
  datatype Network = Network(
    states: map<Switch, seq<(Segment, seq<(int, int)>)>>,
    progression: map<Switch, seq<(Segment, Segment)>>,
    interfaces: map<Switch, seq<(int, Switch)>>)

  /** A control edge, resolved against the topology. */
  datatype Edge = Edge(from: Switch, to: Switch, fromPort: int, toPort: int, fromSeg: Option<Segment>, toSeg: Segment)

  datatype Entry = Entry(edge: Edge, loop: bool)

  datatype Result<T> = Ok(value: T) | Raised

  // ---------- Resolving an edge ----------

  /** get_from_segment: the only segment that progresses to this one, if there is one; two are an error. */
  function FromSegment(ps: seq<(Segment, Segment)>, to: Segment): Result<Option<Segment>> {
    if ps == [] then Ok(None)
    else
      match FromSegment(ps[1..], to)
      case Raised => Raised
      case Ok(rest) =>
        if ps[0].1 != to then Ok(rest) else if rest.Some? then Raised else Ok(Some(ps[0].0))
  }

  /** The port at the far end: the first interface that leads back. */
  function BackPort(ifs: seq<(int, Switch)>, to: Switch): Result<int> {
    if ifs == [] then Raised else if ifs[0].1 == to then Ok(ifs[0].0) else BackPort(ifs[1..], to)
  }

  /** The last interface with this port decides, but every such interface must have a way back. */
  function Neighbour(n: Network, x: Switch, ifs: seq<(int, Switch)>, port: int): Result<Option<(Switch, int)>>
    decreases |ifs|
  {
    if ifs == [] then Ok(None)
    else
      var l := ifs[|ifs| - 1];
      match Neighbour(n, x, ifs[..|ifs| - 1], port)
      case Raised => Raised
      case Ok(before) =>
        if l.0 != port then Ok(before)
        else if l.1 !in n.interfaces then Raised
        else
          match BackPort(n.interfaces[l.1], x)
          case Raised => Raised
          case Ok(back) => Ok(Some((l.1, back)))
  }

  function Resolve(n: Network, x: Switch, h: Hop): Result<Edge> {
    if x !in n.progression || x !in n.interfaces then Raised
    else
      match FromSegment(n.progression[x], h.seg)
      case Raised => Raised
      case Ok(seg) =>
        match Neighbour(n, x, n.interfaces[x], h.port)
        case Raised => Raised
        case Ok(None) => Raised
        case Ok(Some(next)) => Ok(Edge(x, next.0, h.port, next.1, seg, h.seg))
  }

  /** The hops of one segment; state 0 is skipped. */
  function SegmentHops(seg: Segment, states: seq<(int, int)>): seq<Hop> {
    if states == [] then []
    else
      var s := states[|states| - 1];
      SegmentHops(seg, states[..|states| - 1]) + if s.0 == 0 then [] else [Hop(seg, s.1)]
  }

  function Hops(segs: seq<(Segment, seq<(int, int)>)>): seq<Hop> {
    if segs == [] then []
    else
      var s := segs[|segs| - 1];
      Hops(segs[..|segs| - 1]) + SegmentHops(s.0, s.1)
  }

  function HopsOf(n: Network, x: Switch): seq<Hop> { if x in n.states then Hops(n.states[x]) else [] }

  /** All control edges of a switch resolve. */
  predicate AllResolve(n: Network, x: Switch, hs: seq<Hop>) { forall h :: h in hs ==> Resolve(n, x, h).Ok? }

  function Edges(n: Network, x: Switch, hs: seq<Hop>): (r: seq<Edge>)
    requires AllResolve(n, x, hs)
    ensures |r| == |hs| && forall i :: 0 <= i < |hs| ==> r[i] == Resolve(n, x, hs[i]).value
  {
    seq<Edge>(|hs|, i requires 0 <= i < |hs| => Resolve(n, x, hs[i]).value)
  }

  /** A segment has at most one segment that progresses to it. */
  predicate SegmentOk(n: Network, x: Switch, seg: Segment) { x in n.progression && FromSegment(n.progression[x], seg).Ok? }

  /** A switch whose control states are all well defined. */
  predicate Sound(n: Network, x: Switch) {
    && x in n.states
    && (forall i :: 0 <= i < |n.states[x]| ==> SegmentOk(n, x, n.states[x][i].0))
    && AllResolve(n, x, HopsOf(n, x))
  }

  /** A control edge between two switches. */
  predicate Leads(n: Network, e: Edge) { exists h :: h in HopsOf(n, e.from) && Resolve(n, e.from, h) == Ok(e) }

  // ---------- Trees ----------

  /** The switches entered by the entries that are not loops, in order. */
  function Targets(tree: seq<Entry>): seq<Switch> {
    if tree == [] then []
    else
      var e := tree[|tree| - 1];
      Targets(tree[..|tree| - 1]) + if e.loop then [] else [e.edge.to]
  }

  /** The edges recorded for one switch, in order. */
  function EdgesFrom(tree: seq<Entry>, x: Switch): seq<Edge> {
    if tree == [] then []
    else
      var e := tree[|tree| - 1];
      EdgesFrom(tree[..|tree| - 1], x) + if e.edge.from == x then [e.edge] else []
  }

  /** The switches reached so far. */
  function Entered(root: Switch, tree: seq<Entry>): seq<Switch> { [root] + Targets(tree) }

  /**
   * A traversal from a root: every entry is a control edge that leaves a switch already entered; it is marked as a
   * loop exactly if it leads to a switch already entered.
   */
  predicate IsTraversal(n: Network, root: Switch, tree: seq<Entry>)
    decreases |tree|
  {
    tree == [] ||
    (var e := tree[|tree| - 1];
     var before := tree[..|tree| - 1];
     && IsTraversal(n, root, before)
     && Leads(n, e.edge)
     && e.edge.from in Entered(root, before)
     && (e.loop <==> e.edge.to in Entered(root, before)))
  }

  predicate Distinct<T(==)>(s: seq<T>) { forall i, j :: 0 <= i < j < |s| ==> s[i] != s[j] }

  lemma EnteredLast(root: Switch, tree: seq<Entry>)
    requires tree != []
    ensures var e := tree[|tree| - 1];
      Entered(root, tree) == Entered(root, tree[..|tree| - 1]) + if e.loop then [] else [e.edge.to]
  {
  }

  lemma DistinctAppend(s: seq<Switch>, x: Switch)
    requires Distinct(s) && x !in s
    ensures Distinct(s + [x])
  {
  }

  /** Each switch is entered once. */
  lemma {:induction false} EnteredOnce(n: Network, root: Switch, tree: seq<Entry>)
    requires IsTraversal(n, root, tree)
    ensures Distinct(Entered(root, tree))
    decreases |tree|
  {
    if tree != [] {
      var before, e := tree[..|tree| - 1], tree[|tree| - 1];
      EnteredOnce(n, root, before);
      EnteredLast(root, tree);
      if !e.loop { DistinctAppend(Entered(root, before), e.edge.to); }
    }
  }

  // ---------- Reachability ----------

  /** A chain of control edges. */
  predicate IsPath(n: Network, path: seq<Edge>, from: Switch, to: Switch) {
    if path == [] then from == to
    else
      && path[|path| - 1].to == to
      && Leads(n, path[|path| - 1])
      && IsPath(n, path[..|path| - 1], from, path[|path| - 1].from)
  }

  ghost predicate Reachable(n: Network, from: Switch, to: Switch) { exists path :: IsPath(n, path, from, to) }

  lemma ReachableStep(n: Network, from: Switch, e: Edge)
    requires Reachable(n, from, e.from) && Leads(n, e)
    ensures Reachable(n, from, e.to)
  {
    var path :| IsPath(n, path, from, e.from);
    assert (path + [e])[..|path|] == path;
    assert IsPath(n, path + [e], from, e.to);
  }

  /** Every switch entered is reachable along the tree. */
  lemma {:induction false} EnteredReachable(n: Network, root: Switch, tree: seq<Entry>, x: Switch)
    requires IsTraversal(n, root, tree) && x in Entered(root, tree)
    ensures Reachable(n, root, x)
    decreases |tree|
  {
    if x == root {
      assert IsPath(n, [], root, root);
    } else {
      var before := tree[..|tree| - 1];
      var e := tree[|tree| - 1];
      if x in Entered(root, before) {
        EnteredReachable(n, root, before, x);
      } else {
        EnteredReachable(n, root, before, e.edge.from);
        ReachableStep(n, root, e.edge);
      }
    }
  }

  /** A set of switches that the control edges do not leave. */
  ghost predicate ClosedUnder(n: Network, xs: seq<Switch>) { forall e :: Leads(n, e) && e.from in xs ==> e.to in xs }

  lemma {:induction false} PathStays(n: Network, xs: seq<Switch>, path: seq<Edge>, from: Switch, to: Switch)
    requires ClosedUnder(n, xs) && IsPath(n, path, from, to) && from in xs
    ensures to in xs
    decreases |path|
  {
    if path != [] { PathStays(n, xs, path[..|path| - 1], from, path[|path| - 1].from); }
  }

  // ---------- The loops that resolve an edge ----------

  lemma {:induction false} FromSegmentAppend(ps: seq<(Segment, Segment)>, p: (Segment, Segment), to: Segment)
    ensures FromSegment(ps + [p], to) ==
      match FromSegment(ps, to)
      case Raised => Raised
      case Ok(found) => if p.1 != to then Ok(found) else if found.Some? then Raised else Ok(Some(p.0))
    decreases |ps|
  {
    if ps == [] {
      assert FromSegment([], to) == Ok(None);
      assert [p][1..] == [];
    } else {
      FromSegmentAppend(ps[1..], p, to);
      assert (ps + [p])[1..] == ps[1..] + [p];
    }
  }

  /** A segment with one source, with none, or with two. */
  lemma {:induction false} FromSegmentMeans(ps: seq<(Segment, Segment)>, to: Segment)
    ensures FromSegment(ps, to) == Raised <==> exists i, j :: 0 <= i < j < |ps| && ps[i].1 == to && ps[j].1 == to
    ensures FromSegment(ps, to) == Ok(None) <==> forall i :: 0 <= i < |ps| ==> ps[i].1 != to
    ensures forall s :: FromSegment(ps, to) == Ok(Some(s)) ==> exists i :: 0 <= i < |ps| && ps[i] == (s, to)
    decreases |ps|
  {
    if ps != [] {
      var rest := ps[1..];
      FromSegmentMeans(rest, to);
      if i, j :| 0 <= i < j < |rest| && rest[i].1 == to && rest[j].1 == to {
        assert ps[i + 1].1 == to && ps[j + 1].1 == to;
      }
      if i :| 0 <= i < |rest| && rest[i].1 == to { assert ps[i + 1] == rest[i]; }
      assert forall i :: 1 <= i < |ps| ==> ps[i] == rest[i - 1];
    }
  }

  /** The source of a segment: an error exactly if there are two, none exactly if there is none. */
  method GetFromSegment(ps: seq<(Segment, Segment)>, to: Segment) returns (r: Result<Option<Segment>>)
    ensures r == FromSegment(ps, to)
    ensures r == Raised <==> exists i, j :: 0 <= i < j < |ps| && ps[i].1 == to && ps[j].1 == to
    ensures r == Ok(None) <==> forall i :: 0 <= i < |ps| ==> ps[i].1 != to
    ensures r.Ok? && r.value.Some? ==> exists i :: 0 <= i < |ps| && ps[i] == (r.value.value, to)
  {
    FromSegmentMeans(ps, to);
    var found: Option<Segment> := None;
    for i := 0 to |ps|
      invariant FromSegment(ps[..i], to) == Ok(found)
    {
      FromSegmentAppend(ps[..i], ps[i], to);
      assert ps[..i + 1] == ps[..i] + [ps[i]];
      if ps[i].1 == to {
        if found.Some? {
          RaisedStays(ps, to, i + 1);
          return Raised;
        }
        found := Some(ps[i].0);
      }
    }
    assert ps[..|ps|] == ps;
    return Ok(found);
  }

  lemma {:induction false} RaisedStays(ps: seq<(Segment, Segment)>, to: Segment, i: nat)
    requires i <= |ps| && FromSegment(ps[..i], to) == Raised
    ensures FromSegment(ps, to) == Raised
    decreases |ps| - i
  {
    if i == |ps| {
      assert ps[..i] == ps;
    } else {
      FromSegmentAppend(ps[..i], ps[i], to);
      assert ps[..i + 1] == ps[..i] + [ps[i]];
      RaisedStays(ps, to, i + 1);
    }
  }

  lemma {:induction false} NeighbourRaised(n: Network, x: Switch, ifs: seq<(int, Switch)>, port: int, i: nat)
    requires i <= |ifs| && Neighbour(n, x, ifs[..i], port) == Raised
    ensures Neighbour(n, x, ifs, port) == Raised
    decreases |ifs| - i
  {
    if i == |ifs| {
      assert ifs[..i] == ifs;
    } else {
      assert ifs[..i + 1][..i] == ifs[..i];
      NeighbourRaised(n, x, ifs, port, i + 1);
    }
  }

  method FindBackPort(ifs: seq<(int, Switch)>, to: Switch) returns (r: Result<int>)
    ensures r == BackPort(ifs, to)
  {
    for i := 0 to |ifs|
      invariant BackPort(ifs, to) == BackPort(ifs[i..], to)
    {
      if ifs[i].1 == to { return Ok(ifs[i].0); }
    }
    return Raised;
  }

  /** The first interface that leads back, if there is one. */
  lemma {:induction false} BackPortMeans(ifs: seq<(int, Switch)>, to: Switch)
    ensures BackPort(ifs, to) == Raised <==> forall i :: 0 <= i < |ifs| ==> ifs[i].1 != to
    ensures forall b :: BackPort(ifs, to) == Ok(b) ==>
      exists i :: 0 <= i < |ifs| && ifs[i] == (b, to) && forall j :: 0 <= j < i ==> ifs[j].1 != to
    decreases |ifs|
  {
    if ifs != [] {
      var rest := ifs[1..];
      BackPortMeans(rest, to);
      assert forall i :: 1 <= i < |ifs| ==> ifs[i] == rest[i - 1];
      if ifs[0].1 != to {
        forall b | BackPort(ifs, to) == Ok(b)
          ensures exists i :: 0 <= i < |ifs| && ifs[i] == (b, to) && forall j :: 0 <= j < i ==> ifs[j].1 != to
        {
          var i :| 0 <= i < |rest| && rest[i] == (b, to) && forall j :: 0 <= j < i ==> rest[j].1 != to;
          assert ifs[i + 1] == (b, to);
        }
      } else {
        assert ifs[0] == (ifs[0].0, to);
      }
    }
  }

  /** The interface has a way back. */
  predicate LeadsBack(n: Network, x: Switch, y: Switch) { y in n.interfaces && BackPort(n.interfaces[y], x).Ok? }

  /** The last interface with the port, and its way back. */
  lemma {:induction false} NeighbourMeans(n: Network, x: Switch, ifs: seq<(int, Switch)>, port: int)
    ensures Neighbour(n, x, ifs, port) == Raised <==> exists i :: 0 <= i < |ifs| && ifs[i].0 == port && !LeadsBack(n, x, ifs[i].1)
    ensures Neighbour(n, x, ifs, port) == Ok(None) <==> forall i :: 0 <= i < |ifs| ==> ifs[i].0 != port
    ensures forall y, b :: Neighbour(n, x, ifs, port) == Ok(Some((y, b))) ==>
      exists i :: IsLast(ifs, port, i, y) && y in n.interfaces && BackPort(n.interfaces[y], x) == Ok(b)
    decreases |ifs|
  {
    if ifs != [] {
      var k := |ifs| - 1;
      var front := ifs[..k];
      NeighbourMeans(n, x, front, port);
      assert forall i :: 0 <= i < k ==> ifs[i] == front[i];
      assert ifs[k].0 == port ==> IsLast(ifs, port, k, ifs[k].1);
      forall y, b | Neighbour(n, x, ifs, port) == Ok(Some((y, b))) && ifs[k].0 != port
        ensures exists i :: IsLast(ifs, port, i, y) && y in n.interfaces && BackPort(n.interfaces[y], x) == Ok(b)
      {
        var i :| IsLast(front, port, i, y) && y in n.interfaces && BackPort(n.interfaces[y], x) == Ok(b);
        assert IsLast(ifs, port, i, y);
      }
    }
  }

  predicate IsLast(ifs: seq<(int, Switch)>, port: int, i: int, y: Switch) {
    0 <= i < |ifs| && ifs[i] == (port, y) && forall j :: i < j < |ifs| ==> ifs[j].0 != port
  }

  /** The switch behind the last interface with the port; an error exactly if such an interface has no way back. */
  method FindNeighbour(n: Network, x: Switch, port: int) returns (r: Result<Option<(Switch, int)>>)
    requires x in n.interfaces
    ensures r == Neighbour(n, x, n.interfaces[x], port)
    ensures r == Raised <==>
      exists i :: 0 <= i < |n.interfaces[x]| && n.interfaces[x][i].0 == port && !LeadsBack(n, x, n.interfaces[x][i].1)
    ensures r == Ok(None) <==> forall i :: 0 <= i < |n.interfaces[x]| ==> n.interfaces[x][i].0 != port
    ensures r.Ok? && r.value.Some? ==> var (y, b) := r.value.value;
      exists i :: IsLast(n.interfaces[x], port, i, y) && y in n.interfaces && BackPort(n.interfaces[y], x) == Ok(b)
  {
    NeighbourMeans(n, x, n.interfaces[x], port);
    var ifs := n.interfaces[x];
    var found: Option<(Switch, int)> := None;
    for i := 0 to |ifs|
      invariant Neighbour(n, x, ifs[..i], port) == Ok(found)
    {
      assert ifs[..i + 1][..i] == ifs[..i];
      if ifs[i].0 == port {
        if ifs[i].1 !in n.interfaces {
          NeighbourRaised(n, x, ifs, port, i + 1);
          return Raised;
        }
        var back := FindBackPort(n.interfaces[ifs[i].1], x);
        if back.Raised? {
          NeighbourRaised(n, x, ifs, port, i + 1);
          return Raised;
        }
        found := Some((ifs[i].1, back.value));
      }
    }
    assert ifs[..|ifs|] == ifs;
    if found.Some? {
      var (y, b) := found.value;
      assert Neighbour(n, x, ifs, port) == Ok(Some((y, b)));
    }
    return Ok(found);
  }

  // ---------- The traversal ----------

  /** The hops handled so far resolve, and exactly they are recorded. */
  ghost predicate Recorded(n: Network, tree: seq<Entry>, x: Switch, hs: seq<Hop>) {
    AllResolve(n, x, hs) && EdgesFrom(tree, x) == Edges(n, x, hs)
  }

  /** What has been recorded for a switch is all of its control edges. */
  ghost predicate Finished(n: Network, tree: seq<Entry>, x: Switch) { Sound(n, x) && Recorded(n, tree, x, HopsOf(n, x)) }

  /** Some switch within reach is not well defined. */
  ghost predicate Faulty(n: Network, root: Switch) { exists x :: Reachable(n, root, x) && !Sound(n, x) }

  /** The visited list is the root followed by the switches that the tree enters. */
  ghost predicate Consistent(n: Network, root: Switch, visited: seq<Switch>, tree: seq<Entry>) {
    && IsTraversal(n, root, tree)
    && visited == Entered(root, tree)
    && (forall x :: x !in visited ==> EdgesFrom(tree, x) == [])
  }

  /** About to visit a switch: the tree has entered it, or it is the root, but it is not yet in the list. */
  ghost predicate Pending(n: Network, root: Switch, visited: seq<Switch>, tree: seq<Entry>, start: Switch) {
    && IsTraversal(n, root, tree)
    && visited + [start] == Entered(root, tree)
    && start !in visited
    && (forall x :: x !in visited ==> EdgesFrom(tree, x) == [])
  }

  /** Nothing is forgotten; switches newly visited are finished; only the switch under way records more edges. */
  ghost predicate Since(n: Network, v0: seq<Switch>, t0: seq<Entry>, v1: seq<Switch>, t1: seq<Entry>, open: Switch) {
    && v0 <= v1
    && (forall x :: x in v0 && x != open ==> EdgesFrom(t1, x) == EdgesFrom(t0, x))
    && (forall x :: x in v1 && x !in v0 && x != open ==> Finished(n, t1, x))
  }

  lemma FaultAt(n: Network, root: Switch, visited: seq<Switch>, tree: seq<Entry>, x: Switch)
    requires Consistent(n, root, visited, tree) && x in visited && !Sound(n, x)
    ensures Faulty(n, root)
  {
    EnteredReachable(n, root, tree, x);
  }

  lemma SinceTrans(n: Network, v0: seq<Switch>, t0: seq<Entry>, v1: seq<Switch>, t1: seq<Entry>, v2: seq<Switch>, t2: seq<Entry>, open: Switch)
    requires Since(n, v0, t0, v1, t1, open) && Since(n, v1, t1, v2, t2, open)
    ensures Since(n, v0, t0, v2, t2, open)
  {
  }

  /** A visit of a fresh switch, seen from the switch it was entered from. */
  lemma SinceVisit(n: Network, v0: seq<Switch>, t0: seq<Entry>, e: Edge, v1: seq<Switch>, t1: seq<Entry>)
    requires e.from in v0 && e.to !in v0
    requires Since(n, v0, t0 + [Entry(e, false)], v1, t1, e.to) && Finished(n, t1, e.to)
    ensures Since(n, v0, t0, v1, t1, e.from) && EdgesFrom(t1, e.from) == EdgesFrom(t0, e.from) + [e]
  {
    var t := t0 + [Entry(e, false)];
    assert t[..|t0|] == t0;
    assert forall x :: x != e.from ==> EdgesFrom(t, x) == EdgesFrom(t0, x) + [];
  }

  lemma EdgesAppend(t: seq<Entry>, e: Entry, x: Switch)
    ensures EdgesFrom(t + [e], x) == EdgesFrom(t, x) + if e.edge.from == x then [e.edge] else []
  {
    assert (t + [e])[..|t|] == t;
  }

  lemma EnteredAppend(root: Switch, t: seq<Entry>, e: Entry)
    ensures Entered(root, t + [e]) == Entered(root, t) + if e.loop then [] else [e.edge.to]
  {
    assert (t + [e])[..|t|] == t;
  }

  lemma TraversalAppend(n: Network, root: Switch, t: seq<Entry>, e: Entry)
    requires IsTraversal(n, root, t) && Leads(n, e.edge) && e.edge.from in Entered(root, t)
    requires e.loop <==> e.edge.to in Entered(root, t)
    ensures IsTraversal(n, root, t + [e])
  {
    assert (t + [e])[..|t|] == t;
  }

  /** Recording an edge to a fresh switch. */
  lemma AppendFresh(n: Network, root: Switch, v: seq<Switch>, t: seq<Entry>, e: Edge)
    requires Consistent(n, root, v, t) && e.from in v && Leads(n, e) && e.to !in v
    ensures Pending(n, root, v, t + [Entry(e, false)], e.to)
  {
    TraversalAppend(n, root, t, Entry(e, false));
    EnteredAppend(root, t, Entry(e, false));
    forall x | x !in v ensures EdgesFrom(t + [Entry(e, false)], x) == [] { EdgesAppend(t, Entry(e, false), x); }
  }

  /** Recording a loop. */
  lemma AppendLoop(n: Network, root: Switch, v: seq<Switch>, t: seq<Entry>, e: Edge)
    requires Consistent(n, root, v, t) && e.from in v && Leads(n, e) && e.to in v
    ensures Consistent(n, root, v, t + [Entry(e, true)]) && Since(n, v, t, v, t + [Entry(e, true)], e.from)
    ensures EdgesFrom(t + [Entry(e, true)], e.from) == EdgesFrom(t, e.from) + [e]
  {
    TraversalAppend(n, root, t, Entry(e, true));
    EnteredAppend(root, t, Entry(e, true));
    forall x ensures EdgesFrom(t + [Entry(e, true)], x) == EdgesFrom(t, x) + if e.from == x then [e] else [] {
      EdgesAppend(t, Entry(e, true), x);
    }
    assert forall x :: x != e.from ==> EdgesFrom(t + [Entry(e, true)], x) == EdgesFrom(t, x);
  }

  lemma RecordedAppend(n: Network, t0: seq<Entry>, t1: seq<Entry>, x: Switch, hs: seq<Hop>, h: Hop, e: Edge)
    requires Recorded(n, t0, x, hs) && Resolve(n, x, h) == Ok(e) && EdgesFrom(t1, x) == EdgesFrom(t0, x) + [e]
    ensures Recorded(n, t1, x, hs + [h])
  {
    assert AllResolve(n, x, hs + [h]);
    assert Edges(n, x, hs + [h]) == Edges(n, x, hs) + [e];
  }

  lemma PrefixIn(a: seq<Switch>, b: seq<Switch>, x: Switch)
    requires a <= b && x in a
    ensures x in b
  {
    var i :| 0 <= i < |a| && a[i] == x;
    assert b[i] == x;
  }

  /** The first i segments of a switch are handled. */
  ghost predicate Handled(n: Network, tree: seq<Entry>, x: Switch, segs: seq<(Segment, seq<(int, int)>)>, i: nat) {
    && i <= |segs|
    && Recorded(n, tree, x, Hops(segs[..i]))
    && forall j :: 0 <= j < i ==> SegmentOk(n, x, segs[j].0)
  }

  lemma HandledAll(n: Network, tree: seq<Entry>, x: Switch)
    requires x in n.states && Handled(n, tree, x, n.states[x], |n.states[x]|)
    ensures Finished(n, tree, x)
  {
    assert n.states[x][..|n.states[x]|] == n.states[x];
  }

  // ---------- Termination: the switches not yet visited ----------

  ghost function Unvisited(n: Network, visited: seq<Switch>): nat { |n.states.Keys - set x | x in visited| }

  lemma UnvisitedMono(n: Network, v0: seq<Switch>, v1: seq<Switch>)
    requires v0 <= v1
    ensures Unvisited(n, v1) <= Unvisited(n, v0)
  {
    SubsetSize(n.states.Keys - (set x | x in v1), n.states.Keys - (set x | x in v0));
  }

  lemma UnvisitedLess(n: Network, v: seq<Switch>, x: Switch)
    requires x in n.states && x !in v
    ensures Unvisited(n, v + [x]) < Unvisited(n, v)
  {
    var a, b := n.states.Keys - (set y | y in v + [x]), n.states.Keys - (set y | y in v);
    assert x in b && x in v + [x];
    SubsetSize(a, b - {x});
  }

  // ---------- The traversal ----------

  class Traversal {
    const net: Network
    const root: Switch
    var visited: seq<Switch>
    var tree: seq<Entry>

    constructor (n: Network, start: Switch)
      ensures net == n && root == start && visited == [] && tree == []
    {
      net, root, visited, tree := n, start, [], [];
    }

    method ResolveHop(x: Switch, h: Hop) returns (r: Result<Edge>)
      ensures r == Resolve(net, x, h)
    {
      if x !in net.progression || x !in net.interfaces { return Raised; }
      var seg := GetFromSegment(net.progression[x], h.seg);
      if seg.Raised? { return Raised; }
      var next := FindNeighbour(net, x, h.port);
      if next.Raised? || next.value.None? { return Raised; }
      return Ok(Edge(x, next.value.value.0, h.port, next.value.value.1, seg.value, h.seg));
    }

    /** One control state: the edge is recorded, and followed if it leads to a fresh switch. */
    method VisitHop(x: Switch, h: Hop, ghost hs: seq<Hop>) returns (ok: bool)
      requires Consistent(net, root, visited, tree) && x in visited && h in HopsOf(net, x) && Recorded(net, tree, x, hs)
      modifies this`visited, this`tree
      ensures ok ==> Consistent(net, root, visited, tree) && Since(net, old(visited), old(tree), visited, tree, x)
      ensures ok ==> Recorded(net, tree, x, hs + [h])
      ensures !ok ==> Faulty(net, root)
      decreases Unvisited(net, visited), 1
    {
      var r := ResolveHop(x, h);
      if r.Raised? {
        FaultAt(net, root, visited, tree, x);
        return false;
      }
      var e := r.value;
      assert Leads(net, e);
      if e.to !in visited {
        AppendFresh(net, root, visited, tree, e);
        tree := tree + [Entry(e, false)];
        ok := Visit(e.to);
        if !ok { return false; }
        SinceVisit(net, old(visited), old(tree), e, visited, tree);
      } else {
        AppendLoop(net, root, visited, tree, e);
        tree := tree + [Entry(e, true)];
        ok := true;
      }
      RecordedAppend(net, old(tree), tree, x, hs, h, e);
    }

    /** The segment that progresses to this one is looked up before its states are. */
    method CheckSegment(x: Switch, seg: Segment) returns (ok: bool)
      ensures ok <==> SegmentOk(net, x, seg)
    {
      if x !in net.progression { return false; }
      var from := GetFromSegment(net.progression[x], seg);
      return from.Ok?;
    }

    method VisitState(x: Switch, seg: Segment, states: seq<(int, int)>, j: nat, ghost hs: seq<Hop>) returns (ok: bool)
      requires j < |states| && Consistent(net, root, visited, tree) && x in visited
      requires Recorded(net, tree, x, hs + SegmentHops(seg, states[..j]))
      requires forall h :: h in SegmentHops(seg, states) ==> h in HopsOf(net, x)
      modifies this`visited, this`tree
      ensures ok ==> Consistent(net, root, visited, tree) && Since(net, old(visited), old(tree), visited, tree, x)
      ensures ok ==> Recorded(net, tree, x, hs + SegmentHops(seg, states[..j + 1]))
      ensures !ok ==> Faulty(net, root)
      decreases Unvisited(net, visited), 2
    {
      assert states[..j + 1][..j] == states[..j];
      ok := true;
      if states[j].0 == 0 {
        assert SegmentHops(seg, states[..j]) == SegmentHops(seg, states[..j + 1]);
      } else {
        HopIn(seg, states, j);
        Assoc(hs, SegmentHops(seg, states[..j]), [Hop(seg, states[j].1)]);
        ok := VisitHop(x, Hop(seg, states[j].1), hs + SegmentHops(seg, states[..j]));
      }
    }

    /** The control states of one segment. */
    method VisitSegment(x: Switch, seg: Segment, states: seq<(int, int)>, ghost i: nat, ghost hs: seq<Hop>) returns (ok: bool)
      requires Consistent(net, root, visited, tree) && x in visited && Recorded(net, tree, x, hs)
      requires x in net.states && i < |net.states[x]| && net.states[x][i].0 == seg
      requires forall h :: h in SegmentHops(seg, states) ==> h in HopsOf(net, x)
      modifies this`visited, this`tree
      ensures ok ==> Consistent(net, root, visited, tree) && Since(net, old(visited), old(tree), visited, tree, x)
      ensures ok ==> Recorded(net, tree, x, hs + SegmentHops(seg, states)) && SegmentOk(net, x, seg)
      ensures !ok ==> Faulty(net, root)
      decreases Unvisited(net, visited), 3
    {
      assert hs + SegmentHops(seg, states[..0]) == hs;
      var known := CheckSegment(x, seg);
      if !known {
        FaultAt(net, root, visited, tree, x);
        return false;
      }
      for j := 0 to |states|
        invariant Consistent(net, root, visited, tree) && Since(net, old(visited), old(tree), visited, tree, x)
        invariant Recorded(net, tree, x, hs + SegmentHops(seg, states[..j]))
      {
        ghost var v1, t1 := visited, tree;
        PrefixIn(old(visited), visited, x);
        UnvisitedMono(net, old(visited), visited);
        ok := VisitState(x, seg, states, j, hs);
        if !ok { return false; }
        SinceTrans(net, old(visited), old(tree), v1, t1, visited, tree, x);
      }
      assert states[..|states|] == states;
      return true;
    }

    method VisitSegmentAt(x: Switch, segs: seq<(Segment, seq<(int, int)>)>, i: nat) returns (ok: bool)
      requires Consistent(net, root, visited, tree) && x in visited && x in net.states && segs == net.states[x]
      requires i < |segs| && Handled(net, tree, x, segs, i)
      modifies this`visited, this`tree
      ensures ok ==> Consistent(net, root, visited, tree) && Since(net, old(visited), old(tree), visited, tree, x)
      ensures ok ==> Handled(net, tree, x, segs, i + 1)
      ensures !ok ==> Faulty(net, root)
      decreases Unvisited(net, visited), 4
    {
      SegmentIn(segs, i);
      assert segs[..i + 1][..i] == segs[..i];
      ok := VisitSegment(x, segs[i].0, segs[i].1, i, Hops(segs[..i]));
    }

    method VisitAll(x: Switch) returns (ok: bool)
      requires Consistent(net, root, visited, tree) && x in visited && x in net.states && Recorded(net, tree, x, [])
      modifies this`visited, this`tree
      ensures ok ==> Consistent(net, root, visited, tree) && Since(net, old(visited), old(tree), visited, tree, x)
      ensures ok ==> Finished(net, tree, x)
      ensures !ok ==> Faulty(net, root)
      decreases Unvisited(net, visited), 5
    {
      var segs := net.states[x];
      for i := 0 to |segs|
        invariant Consistent(net, root, visited, tree) && Since(net, old(visited), old(tree), visited, tree, x)
        invariant Handled(net, tree, x, segs, i)
      {
        ghost var v1, t1 := visited, tree;
        PrefixIn(old(visited), visited, x);
        UnvisitedMono(net, old(visited), visited);
        ok := VisitSegmentAt(x, segs, i);
        if !ok { return false; }
        SinceTrans(net, old(visited), old(tree), v1, t1, visited, tree, x);
      }
      HandledAll(net, tree, x);
      return true;
    }

    /** generate_control_spanning_tree. */
    method Visit(start: Switch) returns (ok: bool)
      requires Pending(net, root, visited, tree, start)
      modifies this`visited, this`tree
      ensures ok ==> Consistent(net, root, visited, tree) && start in visited
      ensures ok ==> Since(net, old(visited), old(tree), visited, tree, start) && Finished(net, tree, start)
      ensures !ok ==> Faulty(net, root)
      decreases Unvisited(net, visited), 0
    {
      visited := visited + [start];
      if start !in net.states {
        FaultAt(net, root, visited, tree, start);
        return false;
      }
      UnvisitedLess(net, old(visited), start);
      ok := VisitAll(start);
      if ok {
        PrefixIn(old(visited) + [start], visited, start);
        SinceStart(net, old(visited), old(tree), visited, tree, start);
      }
    }
  }

  lemma SinceStart(n: Network, v0: seq<Switch>, t0: seq<Entry>, v1: seq<Switch>, t1: seq<Entry>, x: Switch)
    requires Since(n, v0 + [x], t0, v1, t1, x)
    ensures Since(n, v0, t0, v1, t1, x)
  {
  }

  lemma {:induction false} HopIn(seg: Segment, states: seq<(int, int)>, j: nat)
    requires j < |states| && states[j].0 != 0
    ensures Hop(seg, states[j].1) in SegmentHops(seg, states)
    decreases |states|
  {
    if j < |states| - 1 { HopIn(seg, states[..|states| - 1], j); }
  }

  lemma {:induction false} SegmentIn(segs: seq<(Segment, seq<(int, int)>)>, i: nat)
    requires i < |segs|
    ensures forall h :: h in SegmentHops(segs[i].0, segs[i].1) ==> h in Hops(segs)
    decreases |segs|
  {
    if i < |segs| - 1 { SegmentIn(segs[..|segs| - 1], i); }
  }

  // ---------- What a completed traversal is ----------

  /** All switches entered are finished, so no control edge leaves them. */
  lemma {:induction false} EdgesFromTree(tree: seq<Entry>, e: Edge)
    requires e in EdgesFrom(tree, e.from)
    ensures exists i :: 0 <= i < |tree| && tree[i].edge == e
    decreases |tree|
  {
    var n := |tree| - 1;
    if tree[n].edge != e {
      EdgesFromTree(tree[..n], e);
      var i :| 0 <= i < n && tree[..n][i].edge == e;
      assert tree[i].edge == e;
    }
  }

  lemma {:induction false} TreeEdgeEnters(n: Network, root: Switch, tree: seq<Entry>, i: nat)
    requires IsTraversal(n, root, tree) && i < |tree|
    ensures tree[i].edge.to in Entered(root, tree)
    decreases |tree|
  {
    EnteredLast(root, tree);
    if i < |tree| - 1 { TreeEdgeEnters(n, root, tree[..|tree| - 1], i); }
  }

  /** The switches entered are exactly those reachable from the root, each once. */
  lemma Covers(n: Network, root: Switch, visited: seq<Switch>, tree: seq<Entry>)
    requires Consistent(n, root, visited, tree) && forall x :: x in visited ==> Finished(n, tree, x)
    ensures Distinct(visited) && forall x :: x in visited <==> Reachable(n, root, x)
  {
    EnteredOnce(n, root, tree);
    forall e | Leads(n, e) && e.from in visited ensures e.to in visited {
      var h :| h in HopsOf(n, e.from) && Resolve(n, e.from, h) == Ok(e);
      var k :| 0 <= k < |HopsOf(n, e.from)| && HopsOf(n, e.from)[k] == h;
      assert Edges(n, e.from, HopsOf(n, e.from))[k] == e;
      EdgesFromTree(tree, e);
      var i :| 0 <= i < |tree| && tree[i].edge == e;
      TreeEdgeEnters(n, root, tree, i);
    }
    forall x ensures x in visited <==> Reachable(n, root, x) {
      if x in visited { EnteredReachable(n, root, tree, x); }
      if Reachable(n, root, x) {
        var path :| IsPath(n, path, root, x);
        PathStays(n, visited, path, root, x);
      }
    }
  }

  /**
   * The whole traversal: it succeeds if and only if every switch within reach is well defined, and then it is a tree
   * over exactly the reachable switches, in which every control edge is recorded once.
   */
  method ControlSpanningTree(n: Network, start: Switch) returns (r: Result<seq<Entry>>)
    ensures r.Ok? <==> forall x :: Reachable(n, start, x) ==> Sound(n, x)
    ensures r.Ok? ==> IsTraversal(n, start, r.value)
    ensures r.Ok? ==> Distinct(Entered(start, r.value))
    ensures r.Ok? ==> forall x :: x in Entered(start, r.value) <==> Reachable(n, start, x)
    ensures r.Ok? ==> forall x :: x in Entered(start, r.value) ==> Finished(n, r.value, x)
  {
    var t := new Traversal(n, start);
    assert EdgesFrom([], start) == [] && Entered(start, []) == [start];
    var ok := t.Visit(start);
    if !ok { return Raised; }
    Covers(n, start, t.visited, t.tree);
    return Ok(t.tree);
  }

  // ---------- Feedback tables ----------

  datatype Row =
    | Backward(fromSeg: Option<Segment>, toSeg: Segment, idx: nat, session: nat, inPort: int)
    | Forward(toSeg: Segment, idx: nat)

  /** The tree entries that lead to a switch. */
  function Incoming(tree: seq<Entry>, x: Switch): seq<Edge> {
    if tree == [] then []
    else
      var e := tree[|tree| - 1];
      Incoming(tree[..|tree| - 1], x) + if e.edge.to == x && !e.loop then [e.edge] else []
  }

  /** The segments that tree entries lead to from a switch. */
  function NextSegments(tree: seq<Entry>, x: Switch): set<Segment> {
    set i | 0 <= i < |tree| && tree[i].edge.from == x && !tree[i].loop :: tree[i].edge.toSeg
  }

  function RowOf(e: Edge, idx: nat, session: nat): Row { Backward(e.fromSeg, e.toSeg, idx, session, e.toPort) }

  method FeedbackAckNak(tree: seq<Entry>, x: Switch, offset: nat) returns (next: nat, rows: seq<Row>)
    ensures |rows| == |Incoming(tree, x)| && next == offset + |rows|
    ensures forall i :: 0 <= i < |rows| ==> rows[i] == RowOf(Incoming(tree, x)[i], offset + i, i)
  {
    next, rows := offset, [];
    var session := 0;
    for k := 0 to |tree|
      invariant |rows| == |Incoming(tree[..k], x)| == session && next == offset + |rows|
      invariant forall i :: 0 <= i < |rows| ==> rows[i] == RowOf(Incoming(tree[..k], x)[i], offset + i, i)
    {
      assert tree[..k + 1][..k] == tree[..k];
      var e := tree[k];
      if e.edge.to == x && !e.loop {
        rows := rows + [Backward(e.edge.fromSeg, e.edge.toSeg, next, session, e.edge.toPort)];
        session, next := session + 1, next + 1;
      }
    }
    assert tree[..|tree|] == tree;
  }

  method FeedbackAckReq(tree: seq<Entry>, x: Switch, offset: nat) returns (next: nat, rows: seq<Row>)
    ensures next == offset + |rows|
    ensures forall i :: 0 <= i < |rows| ==> rows[i].Forward? && rows[i].idx == offset + i
    ensures forall i, j :: 0 <= i < j < |rows| ==> rows[i].toSeg != rows[j].toSeg
    ensures forall seg :: seg in NextSegments(tree, x) <==> exists i :: 0 <= i < |rows| && rows[i].toSeg == seg
  {
    next, rows := offset, [];
    var segs: seq<Segment> := [];
    for k := 0 to |tree|
      invariant |segs| == |rows| && next == offset + |rows|
      invariant forall i :: 0 <= i < |rows| ==> rows[i] == Forward(segs[i], offset + i)
      invariant Distinct(segs)
      invariant forall seg :: seg in NextSegments(tree[..k], x) <==> seg in segs
    {
      var e := tree[k];
      NextSegmentsStep(tree, x, k);
      if e.edge.from == x && !e.loop {
        if e.edge.toSeg !in segs {
          segs := segs + [e.edge.toSeg];
          rows := rows + [Forward(e.edge.toSeg, next)];
          next := next + 1;
        }
      }
    }
    assert tree[..|tree|] == tree;
    forall seg ensures seg in segs <==> exists i :: 0 <= i < |rows| && rows[i].toSeg == seg {
      if seg in segs {
        var i :| 0 <= i < |segs| && segs[i] == seg;
        assert rows[i].toSeg == seg;
      }
    }
  }

  lemma NextSegmentsStep(tree: seq<Entry>, x: Switch, k: nat)
    requires k < |tree|
    ensures NextSegments(tree[..k + 1], x) == NextSegments(tree[..k], x)
      + if tree[k].edge.from == x && !tree[k].loop then {tree[k].edge.toSeg} else {}
  {
    var a, b := tree[..k], tree[..k + 1];
    assert forall i :: 0 <= i < k ==> a[i] == b[i];
    assert b[k] == tree[k];
    forall seg | seg in NextSegments(a, x) ensures seg in NextSegments(b, x) {
      var i :| 0 <= i < |a| && a[i].edge.from == x && !a[i].loop && a[i].edge.toSeg == seg;
      assert b[i].edge.toSeg == seg;
    }
  }

  /** generate_feedback_table: over both tables the indices are exactly 0 to n - 1, without repeats. */
  method FeedbackTables(tree: seq<Entry>, x: Switch) returns (back: seq<Row>, forward: seq<Row>)
    ensures forall i :: 0 <= i < |back| + |forward| ==> (back + forward)[i].idx == i
    ensures |back| == |Incoming(tree, x)| && forall i :: 0 <= i < |back| ==> back[i] == RowOf(Incoming(tree, x)[i], i, i)
    ensures forall i :: 0 <= i < |forward| ==> forward[i].Forward?
    ensures forall i, j :: 0 <= i < j < |forward| ==> forward[i].toSeg != forward[j].toSeg
    ensures forall seg :: seg in NextSegments(tree, x) <==> exists i :: 0 <= i < |forward| && forward[i].toSeg == seg
  {
    var idx := 0;
    idx, back := FeedbackAckNak(tree, x, idx);
    idx, forward := FeedbackAckReq(tree, x, idx);
  }

  lemma {:induction false} IncomingEntered(n: Network, root: Switch, tree: seq<Entry>, x: Switch)
    requires IsTraversal(n, root, tree)
    ensures |Incoming(tree, x)| == if x in Targets(tree) then 1 else 0
    decreases |tree|
  {
    if tree != [] {
      var before := tree[..|tree| - 1];
      IncomingEntered(n, root, before, x);
    }
  }

  lemma HeadFresh(x: Switch, s: seq<Switch>)
    requires Distinct([x] + s)
    ensures x !in s
  {
    forall i | 0 <= i < |s| ensures s[i] != x {
      assert ([x] + s)[0] == x && ([x] + s)[i + 1] == s[i];
    }
  }

  /** In a spanning tree the root has no backward row, and every other switch it enters has exactly one. */
  lemma OneParent(n: Network, root: Switch, tree: seq<Entry>, x: Switch)
    requires IsTraversal(n, root, tree) && x in Entered(root, tree)
    ensures |Incoming(tree, x)| == if x == root then 0 else 1
  {
    IncomingEntered(n, root, tree, x);
    EnteredOnce(n, root, tree);
    HeadFresh(root, Targets(tree));
  }
}
