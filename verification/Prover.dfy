/** The memoised, depth-bounded backward-chaining prover of the flight planner. */
module Prover {
  import opened Common
  import opened ProofRules

  datatype Proof =
    | Assumed(prop: Prop)
    | Derived(family: Family, rule: Rule, subs: seq<Option<Proof>>)

  datatype Result<T> = Ok(value: T) | Thrown

  const MaxDepth: nat := 15
  const MaxAlternatives: nat := 50

  // ---------- What a proof is ----------

  /**
   * A well-formed derivation of a goal at a site: rules that are not excluded, whose bounds hold,
   * with every hypothesis either assumed at the node or derived by the sub-proof in its place.
   */
  predicate Proves(s: Site, t: Proof, goal: Prop)
    decreases t
  {
    && AllHold(s.required, s.m)
    && match t
       case Assumed(p) => p == goal && p in s.assumed
       case Derived(f, r, subs) =>
         && goal !in s.assumed
         && s.Usable(f, goal)
         && r == s.Selected(f)
         && AllHold(r.bounds, s.m)
         && |subs| == |r.props|
         && forall i :: 0 <= i < |subs| ==> Covers(s, subs[i], r.props[i])
  }

  predicate Covers(s: Site, h: Option<Proof>, q: Prop)
    decreases h
  {
    match h
    case None => q in s.assumed
    case Some(t) => q !in s.assumed && Proves(s, t, q)
  }

  predicate AllProve(s: Site, ts: seq<Proof>, goal: Prop) { forall t :: t in ts ==> Proves(s, t, goal) }

  /** Hypotheses for the first n properties of a rule. */
  predicate CoversAll(s: Site, hyps: seq<Option<Proof>>, props: seq<Prop>) {
    |hyps| == |props| && forall i :: 0 <= i < |hyps| ==> Covers(s, hyps[i], props[i])
  }

  predicate AllCover(s: Site, alts: seq<seq<Option<Proof>>>, props: seq<Prop>) {
    forall h :: h in alts ==> CoversAll(s, h, props)
  }

  /** The cache holds only non-empty lists of derivations of their own key. */
  predicate CacheOk(s: Site, cache: map<Prop, seq<Proof>>) {
    forall q :: q in cache ==> cache[q] != [] && AllProve(s, cache[q], q)
  }

  // ---------- Soundness and completeness of derivations ----------

  /** A set of properties that holds what the node assumes and is closed under the usable rules. */
  ghost predicate Closed(s: Site, known: set<Prop>) {
    && s.assumed <= known
    && forall f, p | s.Usable(f, p) && AllHold(s.Selected(f).bounds, s.m) ::
         (forall q :: q in s.Selected(f).props ==> q in known) ==> p in known
  }

  /** Every proof is true: its goal lies in every closed set. */
  lemma {:induction false} ProofTrue(s: Site, t: Proof, goal: Prop, known: set<Prop>)
    requires Proves(s, t, goal) && Closed(s, known)
    ensures goal in known
    decreases t
  {
    if t.Derived? {
      forall q | q in t.rule.props ensures q in known {
        var i :| 0 <= i < |t.rule.props| && t.rule.props[i] == q;
        assert Covers(s, t.subs[i], q);
        if t.subs[i].Some? { ProofTrue(s, t.subs[i].value, q, known); }
      }
    }
  }

  function Max(a: nat, b: nat): nat { if a < b then b else a }

  function Height(t: Proof): nat { if t.Assumed? then 0 else HeightOf(t, |t.subs|) }

  /** The height of the first n sub-proofs. */
  function HeightOf(t: Proof, n: nat): nat
    requires t.Derived? && n <= |t.subs|
    decreases t, n
  {
    if n == 0 then 0
    else
      var top := match t.subs[n - 1]
        case None => 0
        case Some(sub) => if sub.Assumed? then 1 else HeightOf(sub, |sub.subs|) + 1;
      Max(top, HeightOf(t, n - 1))
  }

  lemma {:induction false} HeightAt(t: Proof, i: nat, n: nat)
    requires t.Derived? && i < n <= |t.subs| && t.subs[i].Some?
    ensures Height(t.subs[i].value) < HeightOf(t, n)
    decreases n
  {
    if i < n - 1 { HeightAt(t, i, n - 1); }
  }

  lemma {:induction false} DerivableMore(s: Site, p: Prop, h: nat, k: nat)
    requires s.Derivable(p, h) && h <= k
    ensures s.Derivable(p, k)
    decreases h
  {
    if p !in s.assumed {
      var f :| s.Usable(f, p) && AllHold(s.Selected(f).bounds, s.m) && s.Supported(s.Selected(f).props, h);
      forall q | q in s.Selected(f).props ensures q in s.assumed || (k > 0 && s.Derivable(q, k - 1)) {
        if q !in s.assumed { DerivableMore(s, q, h - 1, k - 1); }
      }
      assert s.Supported(s.Selected(f).props, k);
    }
  }

  /** A goal has a proof of a height exactly if it is derivable within it: one direction. */
  lemma {:induction false} ProofDerivable(s: Site, t: Proof, goal: Prop)
    requires Proves(s, t, goal)
    ensures s.Derivable(goal, Height(t))
    decreases t
  {
    if t.Derived? {
      var h := Height(t);
      forall q | q in t.rule.props ensures q in s.assumed || (h > 0 && s.Derivable(q, h - 1)) {
        var i :| 0 <= i < |t.rule.props| && t.rule.props[i] == q;
        assert Covers(s, t.subs[i], q);
        if t.subs[i].Some? {
          ProofDerivable(s, t.subs[i].value, q);
          HeightAt(t, i, |t.subs|);
          DerivableMore(s, q, Height(t.subs[i].value), h - 1);
        }
      }
      assert s.Supported(t.rule.props, h);
    }
  }

  lemma {:induction false} HeightAtMost(t: Proof, n: nat, h: nat)
    requires t.Derived? && n <= |t.subs|
    requires forall i :: 0 <= i < n && t.subs[i].Some? ==> Height(t.subs[i].value) < h
    ensures HeightOf(t, n) <= h
    decreases n
  {
    if n > 0 { HeightAtMost(t, n - 1, h); }
  }

  /** And the other: what is derivable has a proof that is no higher. */
  lemma {:induction false} DerivableProof(s: Site, p: Prop, h: nat) returns (t: Proof)
    requires s.Derivable(p, h)
    ensures Proves(s, t, p) && Height(t) <= h
    decreases h, 1, 0
  {
    if p in s.assumed { return Assumed(p); }
    var f :| s.Usable(f, p) && AllHold(s.Selected(f).bounds, s.m) && s.Supported(s.Selected(f).props, h);
    var r := s.Selected(f);
    var subs := SupportedProofs(s, r.props, h);
    t := Derived(f, r, subs);
    HeightAtMost(t, |subs|, h);
  }

  lemma {:induction false} SupportedProofs(s: Site, props: seq<Prop>, h: nat) returns (subs: seq<Option<Proof>>)
    requires s.Supported(props, h)
    ensures CoversAll(s, subs, props)
    ensures forall i :: 0 <= i < |subs| && subs[i].Some? ==> Height(subs[i].value) < h
    decreases h, 0, |props|
  {
    if h == 0 || props == [] {
      return seq(|props|, _ => None);
    }
    var n := |props| - 1;
    forall q | q in props[..n] ensures q in s.assumed || s.Derivable(q, h - 1) { assert q in props; }
    var front := SupportedProofs(s, props[..n], h);
    var last: Option<Proof> := None;
    assert props[n] in props;
    if props[n] !in s.assumed {
      var t := DerivableProof(s, props[n], h - 1);
      last := Some(t);
    }
    subs := front + [last];
    forall i | 0 <= i < |subs|
      ensures Covers(s, subs[i], props[i])
    {
      if i < n { assert Covers(s, front[i], props[..n][i]); }
    }
  }

  // ---------- Small pieces ----------

  /** The loops over bounds: the first bound that fails or is undefined decides. */
  method CheckBounds(bs: seq<BoundRel>, m: State) returns (r: Result<bool>)
    ensures r.Ok? ==> (r.value <==> AllHold(bs, m))
    ensures r.Thrown? ==> !AllDefined(bs, m)
  {
    for i := 0 to |bs|
      invariant forall j :: 0 <= j < i ==> bs[j].Holds(m)
    {
      if bs[i].v !in m {
        assert !bs[i].Defined(m);
        return Thrown;
      }
      if !bs[i].Holds(m) { return Ok(false); }
    }
    return Ok(true);
  }

  /** The rule with the most hypotheses, found by a scan. */
  method SelectRule(f: Family) returns (r: Rule)
    requires f.rules != []
    ensures r == f.rules[Pick(f.rules)]
  {
    var n, most := 0, 0;
    var rule: Option<Rule> := None;
    ghost var k := 0;
    while n < |f.rules|
      invariant n <= |f.rules|
      invariant n == 0 <==> rule.None?
      invariant rule.Some? ==> k == Pick(f.rules[..n]) && rule.value == f.rules[k] && most == |rule.value.props|
    {
      if |f.rules[n].props| > most || rule.None? {
        rule, most, k := Some(f.rules[n]), |f.rules[n].props|, n;
      }
      n := n + 1;
      assert f.rules[..n][..n - 1] == f.rules[..n - 1];
    }
    assert f.rules[..n] == f.rules;
    r := rule.value;
  }

  method IsExcluded(excluded: seq<string>, name: string) returns (skip: bool)
    ensures skip <==> name in excluded
  {
    for i := 0 to |excluded|
      invariant name !in excluded[..i]
    {
      if name == excluded[i] { return true; }
    }
    return false;
  }

  /** Every alternative gets a hypothesis that needs no proof. */
  method PushNone(alts: seq<seq<Option<Proof>>>) returns (r: seq<seq<Option<Proof>>>)
    ensures |r| == |alts| && forall i :: 0 <= i < |alts| ==> r[i] == alts[i] + [None]
  {
    r := [];
    for i := 0 to |alts|
      invariant |r| == i && forall j :: 0 <= j < i ==> r[j] == alts[j] + [None]
    {
      r := r + [alts[i] + [None]];
    }
  }

  /** A row of the product: an alternative followed by a sub-proof. */
  predicate Product(h: seq<Option<Proof>>, alts: seq<seq<Option<Proof>>>, subs: seq<Proof>) {
    h != [] && h[..|h| - 1] in alts && h[|h| - 1].Some? && h[|h| - 1].value in subs
  }

  /** Multiplying out: bounded, but every sub-proof keeps an alternative. */
  method MultiplyOut(alts: seq<seq<Option<Proof>>>, subs: seq<Proof>) returns (r: seq<seq<Option<Proof>>>)
    requires alts != []
    ensures forall h :: h in r ==> Product(h, alts, subs)
    ensures forall t :: t in subs ==> exists h :: h in r && h != [] && h[|h| - 1] == Some(t)
    ensures subs != [] ==> r != []
  {
    r := [];
    for i := 0 to |subs|
      invariant forall h :: h in r ==> Product(h, alts, subs)
      invariant forall t :: t in subs[..i] ==> exists h :: h in r && h != [] && h[|h| - 1] == Some(t)
      invariant i > 0 ==> r != []
    {
      ghost var before := r;
      var j := 0;
      while j < |alts|
        invariant j <= |alts|
        invariant before <= r
        invariant forall h :: h in r ==> Product(h, alts, subs)
        invariant j > 0 ==> alts[0] + [Some(subs[i])] in r
      {
        var h := alts[j] + [Some(subs[i])];
        assert h[..|h| - 1] == alts[j];
        r := r + [h];
        j := j + 1;
        if |r| > MaxAlternatives { break; }
      }
      var h0 := alts[0] + [Some(subs[i])];
      assert h0[|h0| - 1] == Some(subs[i]);
      forall t | t in subs[..i + 1] ensures exists h :: h in r && h != [] && h[|h| - 1] == Some(t) {
        if t in subs[..i] {
          var h :| h in before && h != [] && h[|h| - 1] == Some(t);
          assert h in r;
        } else {
          assert t == subs[i];
          assert h0 in r;
        }
      }
    }
    assert subs[..|subs|] == subs;
  }

  lemma ProductCovers(s: Site, alts: seq<seq<Option<Proof>>>, subs: seq<Proof>, r: seq<seq<Option<Proof>>>, props: seq<Prop>, q: Prop)
    requires AllCover(s, alts, props) && AllProve(s, subs, q) && q !in s.assumed
    requires forall h :: h in r ==> Product(h, alts, subs)
    ensures AllCover(s, r, props + [q])
  {
    forall h | h in r ensures CoversAll(s, h, props + [q]) {
      var front := h[..|h| - 1];
      assert CoversAll(s, front, props);
      forall i | 0 <= i < |h| ensures Covers(s, h[i], (props + [q])[i]) {
        if i < |h| - 1 { assert h[i] == front[i]; }
      }
    }
  }

  lemma NoneCovers(s: Site, alts: seq<seq<Option<Proof>>>, r: seq<seq<Option<Proof>>>, props: seq<Prop>, q: Prop)
    requires AllCover(s, alts, props) && q in s.assumed
    requires |r| == |alts| && forall i :: 0 <= i < |alts| ==> r[i] == alts[i] + [None]
    ensures AllCover(s, r, props + [q])
  {
    forall h | h in r ensures CoversAll(s, h, props + [q]) {
      var k :| 0 <= k < |r| && r[k] == h;
      assert CoversAll(s, alts[k], props);
    }
  }

  // ---------- The prover ----------

  class Prover {
    const site: Site
    var cache: map<Prop, seq<Proof>>

    constructor (s: Site)
      ensures site == s && cache == map[]
    {
      site, cache := s, map[];
    }

    ghost predicate Valid()
      reads this
    {
      site.Valid() && CacheOk(site, cache)
    }

    /** Entries of the cache never change. */
    twostate predicate Kept()
      reads this
    {
      forall q :: q in old(cache) ==> q in cache && cache[q] == old(cache)[q]
    }

    /**
     * prove: every result is a well-formed derivation; a goal with a derivation within the depth that is left
     * gets a result; only a bound missing from the state makes it throw.
     */
    method Prove(depth: nat, p: Prop) returns (r: Result<seq<Proof>>)
      requires Valid()
      modifies this`cache
      ensures Valid() && Kept()
      ensures r.Ok? ==> AllProve(site, r.value, p)
      ensures r.Ok? && depth <= MaxDepth && site.Derivable(p, MaxDepth - depth) ==> r.value != []
      ensures r.Thrown? ==> !site.Defined()
      decreases if depth <= MaxDepth then MaxDepth + 1 - depth else 0, 3
    {
      if depth > MaxDepth { return Ok([]); }
      var ok := CheckBounds(site.required, site.m);
      if ok.Thrown? { return Thrown; }
      if !ok.value { return Ok([]); }
      if p in site.assumed { return Ok([Assumed(p)]); }
      r := ProveByRules(depth, p);
    }

    method ProveByRules(depth: nat, p: Prop) returns (r: Result<seq<Proof>>)
      requires Valid() && depth <= MaxDepth && AllHold(site.required, site.m) && p !in site.assumed
      modifies this`cache
      ensures Valid() && Kept()
      ensures r.Ok? ==> AllProve(site, r.value, p)
      ensures r.Ok? && site.Derivable(p, MaxDepth - depth) ==> r.value != []
      ensures r.Thrown? ==> !site.Defined()
      decreases MaxDepth + 1 - depth, 2
    {
      var result: seq<Proof> := [];
      for i := 0 to |site.rules|
        invariant Valid() && Kept()
        invariant AllProve(site, result, p)
        invariant forall f :: f in site.rules[..i] && Works(depth, f, p) ==> result != []
      {
        var f := site.rules[i];
        assert f in site.rules;
        var skip := IsExcluded(site.excluded, f.name);
        if !skip && f.conclusion == p {
          var more := TryFamily(depth, f, p);
          if more.Thrown? { return Thrown; }
          result := result + more.value;
        }
      }
      assert site.rules[..|site.rules|] == site.rules;
      return Ok(result);
    }

    /** A family that a derivation of the remaining height can end with. */
    ghost predicate Works(depth: nat, f: Family, p: Prop)
      requires depth <= MaxDepth
    {
      && site.Usable(f, p)
      && AllHold(site.Selected(f).bounds, site.m)
      && site.Supported(site.Selected(f).props, MaxDepth - depth)
    }

    method TryFamily(depth: nat, f: Family, p: Prop) returns (r: Result<seq<Proof>>)
      requires Valid() && depth <= MaxDepth && AllHold(site.required, site.m) && p !in site.assumed && site.Usable(f, p)
      modifies this`cache
      ensures Valid() && Kept()
      ensures r.Ok? ==> AllProve(site, r.value, p)
      ensures r.Ok? && Works(depth, f, p) ==> r.value != []
      ensures r.Thrown? ==> !site.Defined()
      decreases MaxDepth + 1 - depth, 1
    {
      var rule := SelectRule(f);
      var ok := CheckBounds(rule.bounds, site.m);
      if ok.Thrown? { return Thrown; }
      if !ok.value { return Ok([]); }
      var alts := Hypotheses(depth, rule);
      if alts.Thrown? { return Thrown; }
      if alts.value.None? { return Ok([]); }
      var hyps := alts.value.value;
      var result: seq<Proof> := [];
      for i := 0 to |hyps|
        invariant |result| == i && AllProve(site, result, p)
      {
        assert hyps[i] in hyps;
        assert CoversAll(site, hyps[i], rule.props);
        result := result + [Derived(f, rule, hyps[i])];
      }
      return Ok(result);
    }

    /** The alternatives for the hypotheses of a rule; None when one of them has no proof. */
    method Hypotheses(depth: nat, rule: Rule) returns (r: Result<Option<seq<seq<Option<Proof>>>>>)
      requires Valid() && depth <= MaxDepth
      modifies this`cache
      ensures Valid() && Kept()
      ensures r.Ok? && r.value.Some? ==> r.value.value != [] && AllCover(site, r.value.value, rule.props)
      ensures r.Ok? && site.Supported(rule.props, MaxDepth - depth) ==> r.value.Some?
      ensures r.Thrown? ==> !site.Defined()
      decreases MaxDepth + 1 - depth, 0
    {
      var alts: seq<seq<Option<Proof>>> := [[]];
      for i := 0 to |rule.props|
        invariant Valid() && Kept()
        invariant alts != [] && AllCover(site, alts, rule.props[..i])
      {
        var q := rule.props[i];
        assert q in rule.props;
        assert rule.props[..i] + [q] == rule.props[..i + 1];
        ghost var before := alts;
        if q in site.assumed {
          alts := PushNone(alts);
          NoneCovers(site, before, alts, rule.props[..i], q);
        } else {
          var subs := SubProofs(depth, q);
          if subs.Thrown? { return Thrown; }
          if subs.value == [] { return Ok(None); }
          alts := MultiplyOut(alts, subs.value);
          ProductCovers(site, before, subs.value, alts, rule.props[..i], q);
        }
      }
      assert rule.props[..|rule.props|] == rule.props;
      return Ok(Some(alts));
    }

    /** The proofs of a hypothesis: cached ones if there are any. */
    method SubProofs(depth: nat, q: Prop) returns (r: Result<seq<Proof>>)
      requires Valid() && depth <= MaxDepth
      modifies this`cache
      ensures Valid() && Kept()
      ensures r.Ok? ==> AllProve(site, r.value, q)
      ensures r.Ok? && depth < MaxDepth && site.Derivable(q, MaxDepth - depth - 1) ==> r.value != []
      ensures r.Thrown? ==> !site.Defined()
      decreases MaxDepth - depth, 4
    {
      if q in cache { return Ok(cache[q]); }
      r := Prove(depth + 1, q);
      if r.Ok? && r.value != [] && q !in cache { cache := cache[q := r.value]; }
    }
  }
}
