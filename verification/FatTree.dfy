/** The fat-tree generator: wiring and two-level routing tables for every even k, with half = k / 2. */
module FatTree {
  import opened Common

  datatype Element =
    | Core(c: nat)
    | Agg(pod: nat, a: nat)
    | Edge(pod: nat, e: nat)
    | Host(pod: nat, e: nat, h: nat)

  type Port = (Element, nat)

  /** The elements of the network: half * half core switches, k pods of half + half switches, half hosts per edge. */
  predicate Exists(half: nat, x: Element) {
    match x
    case Core(c) => c < half * half
    case Agg(p, a) => p < 2 * half && a < half
    case Edge(p, e) => p < 2 * half && e < half
    case Host(p, e, h) => p < 2 * half && e < half && 2 <= h < half + 2
  }

  /** Ports that should be wired: 1 to k of every switch, and port 1 of every host. */
  predicate IsPort(half: nat, x: Port) {
    Exists(half, x.0) && if x.0.Host? then x.1 == 1 else 1 <= x.1 <= 2 * half
  }

  // ---------- The links in the order in which they are made ----------

  /** A link is made at pod, then switch number within the pod, then port of that switch. */
  datatype Moment = Moment(pod: nat, sw: nat, port: nat)

  predicate IsMoment(half: nat, m: Moment) {
    m.pod < 2 * half && m.sw < 2 * half && 1 <= m.port <= if m.sw < half then half else 2 * half
  }

  predicate Before(m: Moment, n: Moment) {
    m.pod < n.pod || (m.pod == n.pod && (m.sw < n.sw || (m.sw == n.sw && m.port < n.port)))
  }

  /** The two ends of the link made at a moment: link(el1, p1, el2, p2). */
  function Ends(half: nat, m: Moment): (Port, Port)
    requires IsMoment(half, m)
  {
    if m.sw < half then ((Host(m.pod, m.sw, m.port + 1), 1), (Edge(m.pod, m.sw), m.port))
    else
      var a := m.sw - half;
      if m.port <= half then ((Core((m.port - 1) + a * half), m.pod + 1), (Agg(m.pod, a), m.port))
      else ((Edge(m.pod, m.port - half - 1), m.sw + 1), (Agg(m.pod, a), m.port))
  }

  /** When the link at a port is made. */
  function When(half: nat, x: Port): Moment
    requires IsPort(half, x)
  {
    match x.0
    case Core(c) => Moment(x.1 - 1, half + c / half, c % half + 1)
    case Agg(p, a) => Moment(p, half + a, x.1)
    case Edge(p, e) => if x.1 <= half then Moment(p, e, x.1) else Moment(p, x.1 - 1, half + e + 1)
    case Host(p, e, h) => Moment(p, e, h - 1)
  }

  /** The other end of the link at a port. */
  function Peer(half: nat, x: Port): Port
    requires IsPort(half, x)
  {
    match x.0
    case Core(c) => (Agg(x.1 - 1, c / half), c % half + 1)
    case Agg(p, a) => if x.1 <= half then (Core((x.1 - 1) + a * half), p + 1) else (Edge(p, x.1 - half - 1), half + a + 1)
    case Edge(p, e) => if x.1 <= half then (Host(p, e, x.1 + 1), 1) else (Agg(p, x.1 - half - 1), half + e + 1)
    case Host(p, e, h) => (Edge(p, e), h - 1)
  }

  // ---------- Arithmetic of core switch numbers ----------

  /** Division with remainder is unique. */
  lemma RowUnique(half: nat, a: nat, q: nat, b: nat, r: nat)
    requires q < half && r < half && a * half + q == b * half + r
    ensures a == b && q == r
  {
    if a < b { RowsApart(half, a, b); }
    if b < a { RowsApart(half, b, a); }
  }

  lemma CoreIndex(half: nat, a: nat, q: nat)
    requires a < half && q < half
    ensures (q + a * half) / half == a && (q + a * half) % half == q && q + a * half < half * half
  {
    var c := q + a * half;
    RowUnique(half, a, q, c / half, c % half);
    RowsApart(half, a, half);
  }

  lemma CoreSplit(half: nat, c: nat)
    requires half > 0 && c < half * half
    ensures c / half < half && c % half + (c / half) * half == c
  {
    var d := c / half;
    assert c == d * half + c % half;
    if half < d { RowsApart(half, half, d); }
  }

  // ---------- The link relation ----------

  /** The wiring is an involution on the wired ports, and every port sits at the link of its own moment. */
  lemma PeerInvolution(half: nat, x: Port)
    requires IsPort(half, x)
    ensures IsPort(half, Peer(half, x)) && Peer(half, Peer(half, x)) == x && Peer(half, x) != x
    ensures IsMoment(half, When(half, x)) && When(half, Peer(half, x)) == When(half, x)
    ensures var e := Ends(half, When(half, x)); (x == e.0 && Peer(half, x) == e.1) || (x == e.1 && Peer(half, x) == e.0)
  {
    match x.0
    case Core(c) => CoreSplit(half, c);
    case Agg(p, a) => if x.1 <= half { CoreIndex(half, a, x.1 - 1); }
    case Edge(p, e) =>
    case Host(p, e, h) =>
  }

  lemma EndsAt(half: nat, m: Moment)
    requires IsMoment(half, m)
    ensures var e := Ends(half, m);
      && IsPort(half, e.0) && IsPort(half, e.1) && When(half, e.0) == m && When(half, e.1) == m
      && Peer(half, e.0) == e.1 && Peer(half, e.1) == e.0 && e.0 != e.1
  {
    if m.sw >= half && m.port <= half { CoreIndex(half, m.sw - half, m.port - 1); }
  }

  // ---------- Building the links ----------

  predicate Made(half: nat, x: Port, now: Moment) {
    IsPort(half, x) && Before(When(half, x), now)
  }

  /** Exactly the links made before this moment are there, both ways. */
  ghost predicate Wired(half: nat, links: map<Port, Port>, now: Moment) {
    && (forall x :: x in links <==> Made(half, x, now))
    && (forall x :: x in links ==> links[x] == Peer(half, x))
  }

  /** The finished wiring: ports 1 to k of every switch and port 1 of every host, each linked to its peer. */
  ghost predicate FullyWired(half: nat, links: map<Port, Port>) {
    && (forall x :: x in links <==> IsPort(half, x))
    && (forall x :: x in links ==> links[x] == Peer(half, x))
  }

  lemma LinkStep(half: nat, links: map<Port, Port>, m: Moment)
    requires IsMoment(half, m) && Wired(half, links, m)
    ensures var e := Ends(half, m);
      && e.0 !in links && e.1 !in links && e.0 != e.1
      && Wired(half, links[e.0 := e.1][e.1 := e.0], m.(port := m.port + 1))
  {
    EndsAt(half, m);
    var e := Ends(half, m);
    var now := m.(port := m.port + 1);
    forall x | IsPort(half, x)
      ensures Made(half, x, now) <==> Made(half, x, m) || x == e.0 || x == e.1
    {
      PeerInvolution(half, x);
    }
  }

  lemma NextSwitch(half: nat, links: map<Port, Port>, m: Moment)
    requires m.pod < 2 * half && m.sw < 2 * half && m.port == (if m.sw < half then half else 2 * half) + 1
    requires Wired(half, links, m)
    ensures Wired(half, links, Moment(m.pod, m.sw + 1, 1))
  {
    var now := Moment(m.pod, m.sw + 1, 1);
    forall x | IsPort(half, x) ensures Made(half, x, now) <==> Made(half, x, m) { PeerInvolution(half, x); }
  }

  lemma NextPod(half: nat, links: map<Port, Port>, pod: nat)
    requires Wired(half, links, Moment(pod, 2 * half, 1))
    ensures Wired(half, links, Moment(pod + 1, 0, 1))
  {
    var m, now := Moment(pod, 2 * half, 1), Moment(pod + 1, 0, 1);
    forall x | IsPort(half, x) ensures Made(half, x, now) <==> Made(half, x, m) { PeerInvolution(half, x); }
  }

  lemma FirstAndLast(half: nat, links: map<Port, Port>)
    ensures Wired(half, map[], Moment(0, 0, 1))
    ensures Wired(half, links, Moment(2 * half, 0, 1)) ==> FullyWired(half, links)
  {
    forall x | IsPort(half, x)
      ensures Made(half, x, Moment(2 * half, 0, 1)) && !Made(half, x, Moment(0, 0, 1))
    {
      PeerInvolution(half, x);
    }
  }

  // ---------- Addresses and routing rules ----------

  const NetworkNumber: nat := 192

  datatype Address = Address(o1: nat, o2: nat, o3: nat, o4: nat)

  function AddressOf(half: nat, x: Element): Address
    requires Exists(half, x)
  {
    match x
    case Core(c) => Address(NetworkNumber, 2 * half, c / half + 1, c % half + 1)
    case Agg(p, a) => Address(NetworkNumber, p, half + a, 1)
    case Edge(p, e) => Address(NetworkNumber, p, e, 1)
    case Host(p, e, h) => Address(NetworkNumber, p, e, h)
  }

  /** No two elements share an address. */
  lemma AddressInjective(half: nat, x: Element, y: Element)
    requires Exists(half, x) && Exists(half, y) && AddressOf(half, x) == AddressOf(half, y)
    ensures x == y
  {
    if x.Core? && y.Core? {
      CoreSplit(half, x.c);
      CoreSplit(half, y.c);
    }
  }

  datatype Rule = Rule(addr: Address, mask: nat, hop: Address, port: nat, prefix: bool)

  /** Default routes produce no command for the switch. */
  predicate Installed(r: Rule) { r.addr != Address(0, 0, 0, 0) || r.mask != 0 }

  predicate Matches(r: Rule, d: Address) {
    if !r.prefix then r.addr.o4 == d.o4
    else
      && (r.mask >= 8 ==> r.addr.o1 == d.o1)
      && (r.mask >= 16 ==> r.addr.o2 == d.o2)
      && (r.mask >= 24 ==> r.addr.o3 == d.o3)
      && (r.mask >= 32 ==> r.addr.o4 == d.o4)
  }

  /** The output port of the first rule in the list that is in force and matches. */
  function FirstMatch(rules: seq<Rule>, d: Address, defaults: bool): Option<nat> {
    if rules == [] then None
    else if (defaults || Installed(rules[0])) && Matches(rules[0], d) then Some(rules[0].port)
    else FirstMatch(rules[1..], d, defaults)
  }

  lemma {:induction false} FirstMatchAt(rules: seq<Rule>, d: Address, i: nat)
    requires i < |rules| && Installed(rules[i]) && Matches(rules[i], d)
    requires forall j :: 0 <= j < i ==> !(Installed(rules[j]) && Matches(rules[j], d))
    ensures FirstMatch(rules, d, false) == Some(rules[i].port)
    decreases i
  {
    if i > 0 { FirstMatchAt(rules[1..], d, i - 1); }
  }

  /** The output port of a suffix rule at switch number sw of a pod, above the given number of ports. */
  function UpPort(half: nat, sw: nat, id: nat, above: nat): nat
    requires half > 0 && 2 <= id
  {
    (id - 2 + sw) % half + above + 1
  }

  function HopAt(half: nat, x: Port): Address
    requires IsPort(half, x)
  {
    PeerInvolution(half, x);
    AddressOf(half, Peer(half, x).0)
  }

  predicate IsSwitch(half: nat, x: Element) { Exists(half, x) && !x.Host? }

  function CoreRule(half: nat, x: Element, pod: nat): Rule
    requires IsSwitch(half, x) && pod < 2 * half
  {
    Rule(Address(NetworkNumber, pod, 0, 0), 16, HopAt(half, (x, pod + 1)), pod + 1, true)
  }

  function HostRule(half: nat, x: Element, port: nat): Rule
    requires IsSwitch(half, x) && 1 <= port <= 2 * half
  {
    Rule(HopAt(half, (x, port)), 32, HopAt(half, (x, port)), port, true)
  }

  function DefaultRule(half: nat, x: Element): Rule
    requires Exists(half, x)
  {
    Rule(Address(0, 0, 0, 0), 0, HopAt(half, (x, 1)), 1, true)
  }

  function SuffixRule(half: nat, x: Element, sw: nat, id: nat, above: nat): Rule
    requires IsSwitch(half, x) && 2 <= id < half + 2 && above <= half
  {
    var port := UpPort(half, sw, id, above);
    Rule(Address(0, 0, 0, id), 8, HopAt(half, (x, port)), port, false)
  }

  function SubnetRule(half: nat, x: Element, subnet: nat): Rule
    requires IsSwitch(half, x) && x.Agg? && subnet < half
  {
    var port := half + subnet + 1;
    Rule(Address(NetworkNumber, x.pod, subnet, 0), 24, HopAt(half, (x, port)), port, true)
  }

  function SuffixRules(half: nat, x: Element, sw: nat, above: nat, n: nat): seq<Rule>
    requires IsSwitch(half, x) && n <= half && above <= half
  {
    seq<Rule>(n, i requires 0 <= i < n => SuffixRule(half, x, sw, i + 2, above))
  }

  function CoreRules(half: nat, x: Element, n: nat): seq<Rule>
    requires IsSwitch(half, x) && n <= 2 * half
  {
    seq<Rule>(n, i requires 0 <= i < n => CoreRule(half, x, i))
  }

  function HostRules(half: nat, x: Element, n: nat): seq<Rule>
    requires IsSwitch(half, x) && n <= half
  {
    seq<Rule>(n, i requires 0 <= i < n => HostRule(half, x, i + 1))
  }

  function SubnetRules(half: nat, x: Element, n: nat): seq<Rule>
    requires IsSwitch(half, x) && x.Agg? && n <= half
  {
    seq<Rule>(n, i requires 0 <= i < n => SubnetRule(half, x, i))
  }

  /** The rule list of every element, in list order. */
  function Table(half: nat, x: Element): seq<Rule>
    requires Exists(half, x)
  {
    match x
    case Core(c) => CoreRules(half, x, 2 * half)
    case Edge(p, e) => HostRules(half, x, half) + [DefaultRule(half, x)] + SuffixRules(half, x, e, half, half)
    case Agg(p, a) => SubnetRules(half, x, half) + [DefaultRule(half, x)] + SuffixRules(half, x, half + a, 0, half)
    case Host(p, e, h) => [DefaultRule(half, x)]
  }

  ghost predicate Tabled(half: nat, rules: map<Element, seq<Rule>>) {
    && (forall x :: x in rules <==> Exists(half, x))
    && (forall x :: x in rules ==> rules[x] == Table(half, x))
  }
}
