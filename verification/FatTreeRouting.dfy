/** Forwarding by the generated tables over the generated links. */
module FatTreeRouting {
  import opened Common
  import opened FatTree

  predicate IsHost(half: nat, x: Element) { x.Host? && Exists(half, x) }

  function HostAddress(d: Element): Address
    requires d.Host?
  {
    Address(NetworkNumber, d.pod, d.e, d.h)
  }

  datatype Net = Net(half: nat, links: map<Port, Port>, rules: map<Element, seq<Rule>>) {

    /** The element a packet for host d goes to from x; a host keeps its default route, a switch does not. */
    function Hop(x: Element, d: Element): Option<Element>
      requires d.Host?
    {
      if x !in rules then None
      else
        match FirstMatch(rules[x], HostAddress(d), x.Host?)
        case None => None
        case Some(port) => if (x, port) in links then Some(links[(x, port)].0) else None
    }

    /** The elements a packet for host d visits from x, up to a number of hops. */
    function Follow(x: Element, d: Element, hops: nat): seq<Element>
      requires d.Host?
      decreases hops
    {
      if hops == 0 || x == d then [x]
      else
        match Hop(x, d)
        case None => [x]
        case Some(y) => [x] + Follow(y, d, hops - 1)
    }

    /** The generated network: all links and all tables. */
    ghost predicate Generated() { FullyWired(half, links) && Tabled(half, rules) }
  }

  /** The number of links between two distinct hosts. */
  function Links(s: Element, d: Element): nat
    requires s.Host? && d.Host?
  {
    if s.pod != d.pod then 6 else if s.e != d.e then 4 else 2
  }

  predicate Distinct(p: seq<Element>) { forall i, j :: 0 <= i < j < |p| ==> p[i] != p[j] }

  // ---------- What the tables do ----------

  lemma CoreOut(half: nat, c: nat, d: Element)
    requires Exists(half, Core(c)) && IsHost(half, d)
    ensures FirstMatch(Table(half, Core(c)), HostAddress(d), false) == Some(d.pod + 1)
  {
    FirstMatchAt(Table(half, Core(c)), HostAddress(d), d.pod);
  }

  lemma EdgeDown(half: nat, p: nat, e: nat, d: Element)
    requires Exists(half, Edge(p, e)) && IsHost(half, d) && d.pod == p && d.e == e
    ensures FirstMatch(Table(half, Edge(p, e)), HostAddress(d), false) == Some(d.h - 1)
  {
    FirstMatchAt(Table(half, Edge(p, e)), HostAddress(d), d.h - 2);
  }

  /** The suffix rule for the host's id is in the table of the switch. */
  lemma EdgeUpRule(half: nat, p: nat, e: nat, d: Element, i: nat)
    requires Exists(half, Edge(p, e)) && IsHost(half, d) && i == half + 1 + (d.h - 2)
    ensures var rules := Table(half, Edge(p, e));
      i < |rules| && Installed(rules[i]) && Matches(rules[i], HostAddress(d)) && rules[i].port == UpPort(half, e, d.h, half)
  {
  }

  /** The rules before it are for the switch's own hosts. */
  lemma EdgeOwnRules(half: nat, p: nat, e: nat, d: Element, j: nat)
    requires Exists(half, Edge(p, e)) && IsHost(half, d) && !(d.pod == p && d.e == e) && j < half + 1 + (d.h - 2)
    ensures var rules := Table(half, Edge(p, e));
      j < |rules| && !(Installed(rules[j]) && Matches(rules[j], HostAddress(d)))
  {
  }

  lemma EdgeUp(half: nat, p: nat, e: nat, d: Element)
    requires Exists(half, Edge(p, e)) && IsHost(half, d) && !(d.pod == p && d.e == e)
    ensures FirstMatch(Table(half, Edge(p, e)), HostAddress(d), false) == Some(UpPort(half, e, d.h, half))
  {
    var rules, i := Table(half, Edge(p, e)), half + 1 + (d.h - 2);
    EdgeUpRule(half, p, e, d, i);
    forall j | 0 <= j < i ensures !(Installed(rules[j]) && Matches(rules[j], HostAddress(d))) { EdgeOwnRules(half, p, e, d, j); }
    FirstMatchAt(rules, HostAddress(d), i);
  }

  lemma AggDown(half: nat, p: nat, a: nat, d: Element)
    requires Exists(half, Agg(p, a)) && IsHost(half, d) && d.pod == p
    ensures FirstMatch(Table(half, Agg(p, a)), HostAddress(d), false) == Some(half + d.e + 1)
  {
    FirstMatchAt(Table(half, Agg(p, a)), HostAddress(d), d.e);
  }

  lemma AggUp(half: nat, p: nat, a: nat, d: Element)
    requires Exists(half, Agg(p, a)) && IsHost(half, d) && d.pod != p
    ensures FirstMatch(Table(half, Agg(p, a)), HostAddress(d), false) == Some(UpPort(half, half + a, d.h, 0))
  {
    FirstMatchAt(Table(half, Agg(p, a)), HostAddress(d), half + 1 + (d.h - 2));
  }

  // ---------- The suffix rules spread the hosts over the uplinks ----------

  lemma RowsClose(half: nat, a: nat, b: nat, q: nat)
    requires a * half + q <= b * half + q < a * half + q + half
    ensures a == b
  {
    if a < b { RowsApart(half, a, b); }
    if b < a { RowsApart(half, b, a); }
  }

  lemma SameRemainder(half: nat, x: nat, y: nat)
    requires half > 0 && x % half == y % half && x <= y < x + half
    ensures x == y
  {
    assert x == (x / half) * half + x % half;
    assert y == (y / half) * half + y % half;
    RowsClose(half, x / half, y / half, x % half);
  }

  lemma UpPortInjective(half: nat, sw: nat, above: nat, i: nat, j: nat)
    requires 2 <= i <= j < half + 2 && UpPort(half, sw, i, above) == UpPort(half, sw, j, above)
    ensures i == j
  {
    SameRemainder(half, i - 2 + sw, j - 2 + sw);
  }

  /** The host id whose suffix rule uses a port. */
  function IdOf(half: nat, sw: nat, above: nat, port: nat): nat
    requires half > 0 && above + 1 <= port <= above + half
  {
    var t, r := port - above - 1, sw % half;
    2 + if t >= r then t - r else t - r + half
  }

  lemma UpPortOnto(half: nat, sw: nat, above: nat, port: nat)
    requires half > 0 && above + 1 <= port <= above + half
    ensures var id := IdOf(half, sw, above, port); 2 <= id < half + 2 && UpPort(half, sw, id, above) == port
  {
    var t, r, b := port - above - 1, sw % half, sw / half;
    assert sw == b * half + r;
    assert (b + 1) * half == b * half + half;
    var x := IdOf(half, sw, above, port) - 2 + sw;
    RowUnique(half, if t >= r then b else b + 1, t, x / half, x % half);
  }

  /** For a fixed switch the suffix rules map host ids one-to-one onto the uplinks. */
  lemma SuffixBijection(half: nat, sw: nat, above: nat)
    requires half > 0
    ensures forall id :: 2 <= id < half + 2 ==> above + 1 <= UpPort(half, sw, id, above) <= above + half
    ensures forall i, j | 2 <= i < half + 2 && 2 <= j < half + 2 :: UpPort(half, sw, i, above) == UpPort(half, sw, j, above) ==> i == j
    ensures forall port | above + 1 <= port <= above + half ::
      var id := IdOf(half, sw, above, port); 2 <= id < half + 2 && UpPort(half, sw, id, above) == port
  {
    forall i, j | 2 <= i < half + 2 && 2 <= j < half + 2 && UpPort(half, sw, i, above) == UpPort(half, sw, j, above)
      ensures i == j
    {
      if i <= j { UpPortInjective(half, sw, above, i, j); } else { UpPortInjective(half, sw, above, j, i); }
    }
    forall port | above + 1 <= port <= above + half
      ensures var id := IdOf(half, sw, above, port); 2 <= id < half + 2 && UpPort(half, sw, id, above) == port
    {
      UpPortOnto(half, sw, above, port);
    }
  }

  // ---------- Delivery ----------

  lemma HopIs(n: Net, x: Element, d: Element, port: nat)
    requires n.Generated() && IsPort(n.half, (x, port)) && d.Host?
    requires FirstMatch(Table(n.half, x), HostAddress(d), x.Host?) == Some(port)
    ensures n.Hop(x, d) == Some(Peer(n.half, (x, port)).0)
  {
    assert (x, port) in n.links;
    assert n.rules[x] == Table(n.half, x);
  }

  lemma HostToEdge(n: Net, s: Element, d: Element)
    requires n.Generated() && IsHost(n.half, s) && d.Host?
    ensures n.Hop(s, d) == Some(Edge(s.pod, s.e))
  {
    HopIs(n, s, d, 1);
  }

  lemma EdgeToHost(n: Net, d: Element)
    requires n.Generated() && IsHost(n.half, d)
    ensures n.Hop(Edge(d.pod, d.e), d) == Some(d)
  {
    EdgeDown(n.half, d.pod, d.e, d);
    HopIs(n, Edge(d.pod, d.e), d, d.h - 1);
  }

  lemma AggToEdge(n: Net, a: nat, d: Element)
    requires n.Generated() && IsHost(n.half, d) && a < n.half
    ensures n.Hop(Agg(d.pod, a), d) == Some(Edge(d.pod, d.e))
  {
    AggDown(n.half, d.pod, a, d);
    HopIs(n, Agg(d.pod, a), d, n.half + d.e + 1);
  }

  /** The core switch above an aggregation switch for a host id. */
  function CoreFor(half: nat, a: nat, id: nat): (c: nat)
    requires a < half && 2 <= id
    ensures Exists(half, Core(c)) && c / half == a
  {
    CoreIndex(half, a, UpPort(half, half + a, id, 0) - 1);
    (UpPort(half, half + a, id, 0) - 1) + a * half
  }

  lemma CoreToAgg(n: Net, a: nat, d: Element)
    requires n.Generated() && IsHost(n.half, d) && a < n.half
    ensures n.Hop(Core(CoreFor(n.half, a, d.h)), d) == Some(Agg(d.pod, a))
  {
    var c := CoreFor(n.half, a, d.h);
    CoreOut(n.half, c, d);
    HopIs(n, Core(c), d, d.pod + 1);
  }

  lemma AggToCore(n: Net, p: nat, a: nat, d: Element)
    requires n.Generated() && IsHost(n.half, d) && p < 2 * n.half && p != d.pod && a < n.half
    ensures n.Hop(Agg(p, a), d) == Some(Core(CoreFor(n.half, a, d.h)))
  {
    AggUp(n.half, p, a, d);
    var port := UpPort(n.half, n.half + a, d.h, 0);
    UpPeer(n.half, p, a, d.h, port);
    HopIs(n, Agg(p, a), d, port);
  }

  lemma UpPeer(half: nat, p: nat, a: nat, id: nat, port: nat)
    requires p < 2 * half && a < half && 2 <= id && port == UpPort(half, half + a, id, 0)
    ensures IsPort(half, (Agg(p, a), port)) && Peer(half, (Agg(p, a), port)).0 == Core(CoreFor(half, a, id))
  {
  }

  /** The aggregation switch that the edge switch of s chooses for d. */
  function Up(half: nat, s: Element, d: Element): (a: nat)
    requires IsHost(half, s) && IsHost(half, d)
    ensures a < half
  {
    UpPort(half, s.e, d.h, half) - half - 1
  }

  lemma EdgeToAgg(n: Net, s: Element, d: Element)
    requires n.Generated() && IsHost(n.half, s) && IsHost(n.half, d) && !(s.pod == d.pod && s.e == d.e)
    ensures n.Hop(Edge(s.pod, s.e), d) == Some(Agg(s.pod, Up(n.half, s, d)))
  {
    EdgeUp(n.half, s.pod, s.e, d);
    HopIs(n, Edge(s.pod, s.e), d, UpPort(n.half, s.e, d.h, n.half));
  }

  /** The route from s to d. */
  function Way(half: nat, s: Element, d: Element): seq<Element>
    requires IsHost(half, s) && IsHost(half, d)
  {
    var a := Up(half, s, d);
    if s.pod != d.pod then
      [s, Edge(s.pod, s.e), Agg(s.pod, a), Core(CoreFor(half, a, d.h)), Agg(d.pod, a), Edge(d.pod, d.e), d]
    else if s.e != d.e then [s, Edge(s.pod, s.e), Agg(s.pod, a), Edge(d.pod, d.e), d]
    else [s, Edge(s.pod, s.e), d]
  }

  /** A path along the hops towards d. */
  predicate Along(n: Net, path: seq<Element>, d: Element)
    requires d.Host?
  {
    && path != []
    && path[|path| - 1] == d
    && forall i :: 0 <= i < |path| - 1 ==> path[i] != d && n.Hop(path[i], d) == Some(path[i + 1])
  }

  lemma {:induction false} FollowAlong(n: Net, path: seq<Element>, d: Element, hops: nat)
    requires d.Host? && Along(n, path, d) && hops >= |path| - 1
    ensures n.Follow(path[0], d, hops) == path
    decreases |path|
  {
    if |path| > 1 {
      var rest := path[1..];
      assert forall i :: 0 <= i < |rest| - 1 ==> rest[i] == path[i + 1] && n.Hop(rest[i], d) == Some(rest[i + 1]);
      FollowAlong(n, rest, d, hops - 1);
    }
  }

  lemma AlongCons(n: Net, x: Element, path: seq<Element>, d: Element)
    requires d.Host? && Along(n, path, d) && x != d && n.Hop(x, d) == Some(path[0])
    ensures Along(n, [x] + path, d)
  {
  }

  /** From an aggregation switch in the pod of d down. */
  lemma DownAlong(n: Net, a: nat, d: Element)
    requires n.Generated() && IsHost(n.half, d) && a < n.half
    ensures Along(n, [Edge(d.pod, d.e), d], d) && Along(n, [Agg(d.pod, a), Edge(d.pod, d.e), d], d)
  {
    EdgeToHost(n, d);
    AggToEdge(n, a, d);
    AlongCons(n, Agg(d.pod, a), [Edge(d.pod, d.e), d], d);
    assert [Agg(d.pod, a)] + [Edge(d.pod, d.e), d] == [Agg(d.pod, a), Edge(d.pod, d.e), d];
  }

  /** From an aggregation switch in another pod over a core switch. */
  lemma OverAlong(n: Net, p: nat, a: nat, d: Element)
    requires n.Generated() && IsHost(n.half, d) && p < 2 * n.half && p != d.pod && a < n.half
    ensures Along(n, [Agg(p, a), Core(CoreFor(n.half, a, d.h)), Agg(d.pod, a), Edge(d.pod, d.e), d], d)
  {
    var c := Core(CoreFor(n.half, a, d.h));
    var down := [Agg(d.pod, a), Edge(d.pod, d.e), d];
    DownAlong(n, a, d);
    CoreToAgg(n, a, d);
    AlongCons(n, c, down, d);
    AggToCore(n, p, a, d);
    AlongCons(n, Agg(p, a), [c] + down, d);
    assert [Agg(p, a)] + ([c] + down) == [Agg(p, a), c, Agg(d.pod, a), Edge(d.pod, d.e), d];
  }

  lemma AlongHost(n: Net, s: Element, d: Element, path: seq<Element>)
    requires n.Generated() && IsHost(n.half, s) && IsHost(n.half, d) && s != d
    requires Along(n, path, d) && path[0] == Edge(s.pod, s.e)
    ensures Along(n, [s] + path, d)
  {
    HostToEdge(n, s, d);
    AlongCons(n, s, path, d);
  }

  lemma AlongEdge(n: Net, s: Element, d: Element, path: seq<Element>)
    requires n.Generated() && IsHost(n.half, s) && IsHost(n.half, d) && !(s.pod == d.pod && s.e == d.e)
    requires Along(n, path, d) && path[0] == Agg(s.pod, Up(n.half, s, d))
    ensures Along(n, [Edge(s.pod, s.e)] + path, d)
  {
    EdgeToAgg(n, s, d);
    AlongCons(n, Edge(s.pod, s.e), path, d);
  }

  lemma WayAlong(n: Net, s: Element, d: Element)
    requires n.Generated() && IsHost(n.half, s) && IsHost(n.half, d) && s != d
    ensures Along(n, Way(n.half, s, d), d)
  {
    var a, e := Up(n.half, s, d), Edge(s.pod, s.e);
    DownAlong(n, a, d);
    var path := [e, d];
    if s.pod != d.pod || s.e != d.e {
      path := [Agg(s.pod, a), Edge(d.pod, d.e), d];
      if s.pod != d.pod {
        OverAlong(n, s.pod, a, d);
        path := [Agg(s.pod, a), Core(CoreFor(n.half, a, d.h)), Agg(d.pod, a), Edge(d.pod, d.e), d];
      }
      AlongEdge(n, s, d, path);
      path := [e] + path;
    }
    AlongHost(n, s, d, path);
    assert Way(n.half, s, d) == [s] + path;
  }

  lemma WayShape(half: nat, s: Element, d: Element)
    requires IsHost(half, s) && IsHost(half, d) && s != d
    ensures var path := Way(half, s, d);
      && |path| == Links(s, d) + 1
      && path[0] == s
      && path[Links(s, d)] == d
      && Distinct(path)
  {
  }

  /**
   * Delivery. For every even k and every pair of distinct hosts, forwarding reaches the destination
   * in exactly 2, 4 or 6 links and visits no element twice.
   */
  lemma Delivery(n: Net, s: Element, d: Element, hops: nat)
    requires n.Generated() && IsHost(n.half, s) && IsHost(n.half, d) && s != d && hops >= 6
    ensures var path := n.Follow(s, d, hops);
      && |path| == Links(s, d) + 1
      && path[0] == s
      && path[Links(s, d)] == d
      && Distinct(path)
  {
    WayAlong(n, s, d);
    WayShape(n.half, s, d);
    FollowAlong(n, Way(n.half, s, d), d, hops);
  }
}
