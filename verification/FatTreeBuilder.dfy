/** The generator itself: pods are wired link by link, then every switch gets its rule list. */
module FatTreeBuilder {
  import opened Common
  import opened FatTree
  import opened FatTreeRouting

  /** The lists there are complete. */
  ghost predicate Tables(half: nat, rules: map<Element, seq<Rule>>) {
    forall x :: x in rules ==> Exists(half, x) && rules[x] == Table(half, x)
  }

  /** Hosts have their default route as soon as they are linked. */
  ghost predicate HostTables(half: nat, rules: map<Element, seq<Rule>>, now: Moment) {
    && (forall x :: x in rules <==> x.Host? && Made(half, (x, 1), now))
    && (forall x :: x in rules ==> rules[x] == Table(half, x))
  }

  predicate PodSwitch(half: nat, x: Element) { Exists(half, x) && (x.Edge? || x.Agg?) }

  /** Pod switches in the order in which they are made. */
  predicate Listed(half: nat, x: Element, pod: nat, sw: nat) {
    && PodSwitch(half, x)
    && (x.pod < pod || (x.pod == pod && (if x.Edge? then x.e else half + x.a) < sw))
  }

  /** The worklist holds exactly the pod switches made so far, each once. */
  ghost predicate Worklist(half: nat, list: seq<Element>, pod: nat, sw: nat) {
    && (forall x :: x in list <==> Listed(half, x, pod, sw))
    && Distinct(list)
  }

  function SwitchAt(half: nat, pod: nat, sw: nat): Element {
    if sw < half then Edge(pod, sw) else Agg(pod, sw - half)
  }

  lemma WorklistStep(half: nat, list: seq<Element>, pod: nat, sw: nat)
    requires Worklist(half, list, pod, sw) && pod < 2 * half && sw < 2 * half
    ensures Worklist(half, list + [SwitchAt(half, pod, sw)], pod, sw + 1)
  {
    var y := SwitchAt(half, pod, sw);
    assert !Listed(half, y, pod, sw);
    forall x ensures Listed(half, x, pod, sw + 1) <==> Listed(half, x, pod, sw) || x == y { }
  }

  lemma HostStep(half: nat, rules: map<Element, seq<Rule>>, m: Moment)
    requires IsMoment(half, m) && m.sw < half && HostTables(half, rules, m)
    ensures var host := Ends(half, m).0.0;
      Exists(half, host) && host !in rules
      && HostTables(half, rules[host := [DefaultRule(half, host)]], m.(port := m.port + 1))
  {
    EndsAt(half, m);
    var host := Ends(half, m).0.0;
    var now := m.(port := m.port + 1);
    forall x: Element | x.Host? ensures Made(half, (x, 1), now) <==> Made(half, (x, 1), m) || x == host { }
  }

  lemma NoHosts(half: nat, rules: map<Element, seq<Rule>>, m: Moment, n: Moment)
    requires HostTables(half, rules, m) && m.pod == n.pod && !Before(n, m)
    requires m.sw >= half || (m.sw == n.sw && m.port > half) || (m.sw + 1 == n.sw && n.port == 1 && m.port > half)
    ensures HostTables(half, rules, n)
  {
    forall x: Element | x.Host? ensures Made(half, (x, 1), n) <==> Made(half, (x, 1), m) { }
  }

  lemma HostsNextPod(half: nat, rules: map<Element, seq<Rule>>, pod: nat)
    requires HostTables(half, rules, Moment(pod, 2 * half, 1))
    ensures HostTables(half, rules, Moment(pod + 1, 0, 1))
  {
    forall x: Element | x.Host? ensures Made(half, (x, 1), Moment(pod, 2 * half, 1)) <==> Made(half, (x, 1), Moment(pod + 1, 0, 1)) { }
  }

  /** What pod construction has done before a moment. */
  ghost predicate Progress(half: nat, links: map<Port, Port>, rules: map<Element, seq<Rule>>, m: Moment) {
    Wired(half, links, m) && HostTables(half, rules, m)
  }

  class Network {
    const half: nat
    var links: map<Port, Port>
    var rules: map<Element, seq<Rule>>
    var worklist: seq<Element>

    constructor (h: nat)
      ensures half == h && links == map[] && rules == map[] && worklist == []
    {
      half, links, rules, worklist := h, map[], map[], [];
    }

    /** link: both ports must be free. */
    method Link(x: Port, y: Port)
      requires x !in links && y !in links && x != y
      modifies this`links
      ensures links == old(links)[x := y][y := x]
    {
      links := links[x := y][y := x];
    }

    /** The link of a moment finds both of its ports free. */
    method LinkAt(x: Port, y: Port, ghost m: Moment)
      requires IsMoment(half, m) && Ends(half, m) == (x, y) && Wired(half, links, m)
      modifies this`links
      ensures Wired(half, links, m.(port := m.port + 1))
    {
      LinkStep(half, links, m);
      Link(x, y);
    }

    /** The hosts of an edge switch. */
    method WireEdge(pod: nat, sw: nat)
      requires pod < 2 * half && sw < half && Progress(half, links, rules, Moment(pod, sw, 1))
      modifies this`links, this`rules
      ensures Progress(half, links, rules, Moment(pod, sw + 1, 1))
    {
      var port := 1;
      for id := 2 to half + 2
        invariant port == id - 1
        invariant Progress(half, links, rules, Moment(pod, sw, port))
      {
        ghost var m := Moment(pod, sw, port);
        var host := Host(pod, sw, id);
        HostStep(half, rules, m);
        LinkAt((host, 1), (Edge(pod, sw), port), m);
        rules := rules[host := [Rule(Address(0, 0, 0, 0), 0, AddressOf(half, Edge(pod, sw)), 1, true)]];
        port := port + 1;
      }
      NextSwitch(half, links, Moment(pod, sw, port));
      NoHosts(half, rules, Moment(pod, sw, port), Moment(pod, sw + 1, 1));
    }

    /** The uplinks of an aggregation switch. */
    method WireUp(pod: nat, sw: nat)
      requires pod < 2 * half && half <= sw < 2 * half && Wired(half, links, Moment(pod, sw, 1))
      modifies this`links
      ensures Wired(half, links, Moment(pod, sw, half + 1))
    {
      for port := 1 to half + 1
        invariant Wired(half, links, Moment(pod, sw, port))
      {
        LinkAt((Core((port - 1) + (sw - half) * half), pod + 1), (Agg(pod, sw - half), port), Moment(pod, sw, port));
      }
    }

    /** The downlinks of an aggregation switch. */
    method WireDown(pod: nat, sw: nat)
      requires pod < 2 * half && half <= sw < 2 * half && Wired(half, links, Moment(pod, sw, half + 1))
      modifies this`links
      ensures Wired(half, links, Moment(pod, sw, 2 * half + 1))
    {
      var port := half;
      for e := 0 to half
        invariant port == half + e
        invariant Wired(half, links, Moment(pod, sw, port + 1))
      {
        LinkAt((Edge(pod, e), sw + 1), (Agg(pod, sw - half), port + 1), Moment(pod, sw, port + 1));
        port := port + 1;
      }
    }

    method WireAgg(pod: nat, sw: nat)
      requires pod < 2 * half && half <= sw < 2 * half && Progress(half, links, rules, Moment(pod, sw, 1))
      modifies this`links
      ensures Progress(half, links, rules, Moment(pod, sw + 1, 1))
    {
      WireUp(pod, sw);
      WireDown(pod, sw);
      NextSwitch(half, links, Moment(pod, sw, 2 * half + 1));
      NoHosts(half, rules, Moment(pod, sw, 1), Moment(pod, sw + 1, 1));
    }

    method MakePod(pod: nat)
      requires pod < 2 * half && Progress(half, links, rules, Moment(pod, 0, 1)) && Worklist(half, worklist, pod, 0)
      modifies this`links, this`rules, this`worklist
      ensures Progress(half, links, rules, Moment(pod + 1, 0, 1)) && Worklist(half, worklist, pod + 1, 0)
    {
      for sw := 0 to 2 * half
        invariant Progress(half, links, rules, Moment(pod, sw, 1)) && Worklist(half, worklist, pod, sw)
      {
        if sw < half { WireEdge(pod, sw); } else { WireAgg(pod, sw); }
        WorklistStep(half, worklist, pod, sw);
        worklist := worklist + [SwitchAt(half, pod, sw)];
      }
      NextPod(half, links, pod);
      HostsNextPod(half, rules, pod);
      assert forall x :: Listed(half, x, pod, 2 * half) <==> Listed(half, x, pod + 1, 0);
    }

    method CoreTable(x: Element) returns (t: seq<Rule>)
      requires FullyWired(half, links) && IsSwitch(half, x) && x.Core?
      ensures t == Table(half, x)
    {
      t := [];
      for pod := 0 to 2 * half
        invariant t == CoreRules(half, x, pod)
      {
        var next := NextHop(x, pod + 1);
        t := t + [Rule(Address(NetworkNumber, pod, 0, 0), 16, next, pod + 1, true)];
      }
    }

    /** The address at the other end of a linked port. */
    method NextHop(x: Element, port: nat) returns (a: Address)
      requires FullyWired(half, links) && IsPort(half, (x, port))
      ensures a == HopAt(half, (x, port))
    {
      PeerInvolution(half, (x, port));
      assert (x, port) in links;
      a := AddressOf(half, links[(x, port)].0);
    }

    method SuffixTable(x: Element, sw: nat, above: nat) returns (t: seq<Rule>)
      requires FullyWired(half, links) && IsSwitch(half, x) && above <= half
      ensures t == SuffixRules(half, x, sw, above, half)
    {
      t := [];
      for id := 2 to half + 2
        invariant t == SuffixRules(half, x, sw, above, id - 2)
      {
        var port := (id - 2 + sw) % half + above + 1;
        var next := NextHop(x, port);
        t := t + [Rule(Address(0, 0, 0, id), 8, next, port, false)];
      }
    }

    /** Every one of the k ports of an edge switch is looked at; the hosts are on the first half. */
    method HostTable(x: Element) returns (t: seq<Rule>)
      requires FullyWired(half, links) && IsSwitch(half, x) && x.Edge?
      ensures t == HostRules(half, x, half)
    {
      t := [];
      for port := 1 to 2 * half + 1
        invariant t == HostRules(half, x, if port <= half then port - 1 else half)
      {
        assert (x, port) in links;
        var target := links[(x, port)].0;
        if target.Host? {
          var a := NextHop(x, port);
          t := t + [Rule(a, 32, a, port, true)];
        }
      }
    }

    method SubnetTable(x: Element) returns (t: seq<Rule>)
      requires FullyWired(half, links) && IsSwitch(half, x) && x.Agg?
      ensures t == SubnetRules(half, x, half)
    {
      t := [];
      for subnet := 0 to half
        invariant t == SubnetRules(half, x, subnet)
      {
        var port := half + subnet + 1;
        var next := NextHop(x, port);
        t := t + [Rule(Address(NetworkNumber, x.pod, subnet, 0), 24, next, port, true)];
      }
    }

    method PodTable(x: Element) returns (t: seq<Rule>)
      requires FullyWired(half, links) && PodSwitch(half, x)
      ensures t == Table(half, x)
    {
      var first: seq<Rule>;
      var suffix: seq<Rule>;
      if x.Edge? {
        first := HostTable(x);
        suffix := SuffixTable(x, x.e, half);
      } else {
        first := SubnetTable(x);
        suffix := SuffixTable(x, half + x.a, 0);
      }
      var next := NextHop(x, 1);
      t := first + [Rule(Address(0, 0, 0, 0), 0, next, 1, true)] + suffix;
    }

    /** The rules of an element start empty and are appended to. */
    method Append(x: Element, t: seq<Rule>)
      modifies this`rules
      ensures rules == old(rules)[x := (if x in old(rules) then old(rules)[x] else []) + t]
    {
      rules := rules[x := (if x in rules then rules[x] else []) + t];
    }

    method CoreRoutes()
      requires FullyWired(half, links)
      requires forall x :: x in rules <==> IsHost(half, x)
      requires Tables(half, rules)
      modifies this`rules
      ensures forall x :: x in rules <==> Exists(half, x) && (x.Core? || x.Host?)
      ensures Tables(half, rules)
    {
      for c := 0 to half * half
        invariant forall x :: x in rules <==> IsHost(half, x) || (x.Core? && x.c < c)
        invariant Tables(half, rules)
      {
        var t := CoreTable(Core(c));
        Append(Core(c), t);
      }
    }

    method PodRoutes()
      requires FullyWired(half, links) && Worklist(half, worklist, 2 * half, 0)
      requires forall x :: x in rules <==> Exists(half, x) && (x.Core? || x.Host?)
      requires Tables(half, rules)
      modifies this`rules
      ensures Tabled(half, rules)
    {
      for i := 0 to |worklist|
        invariant forall x :: x in rules <==> (Exists(half, x) && (x.Core? || x.Host?)) || x in worklist[..i]
        invariant Tables(half, rules)
      {
        var x := worklist[i];
        assert x in worklist && Listed(half, x, 2 * half, 0);
        var t := PodTable(x);
        Append(x, t);
        assert worklist[..i + 1] == worklist[..i] + [x];
      }
      assert worklist[..|worklist|] == worklist;
      assert forall x :: Listed(half, x, 2 * half, 0) <==> PodSwitch(half, x);
    }

    method WirePods()
      requires links == map[] && rules == map[] && worklist == []
      modifies this`links, this`rules, this`worklist
      ensures Progress(half, links, rules, Moment(2 * half, 0, 1)) && Worklist(half, worklist, 2 * half, 0)
    {
      FirstAndLast(half, links);
      for pod := 0 to 2 * half
        invariant Progress(half, links, rules, Moment(pod, 0, 1)) && Worklist(half, worklist, pod, 0)
      {
        MakePod(pod);
      }
    }

    /** The whole generator. */
    method Build()
      requires links == map[] && rules == map[] && worklist == []
      modifies this`links, this`rules, this`worklist
      ensures Net(half, links, rules).Generated()
    {
      WirePods();
      FirstAndLast(half, links);
      CoreRoutes();
      PodRoutes();
    }
  }
}
