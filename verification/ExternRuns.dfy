/** Splitting a program for several externs, one after the other. */
module ExternRuns {
  import opened Common
  import opened ExternActions
  import opened ExternTables
  import opened ExternMeaning

  // ---------- What the externs still to come need ----------

  /** No extern of the list splits these primitives. */
  predicate Unsplit(ps: seq<Prim>, ops: seq<string>) { forall i :: 0 <= i < |ops| ==> |Parts(ps, ops[i])| == 1 }

  /** The action is split for at most one of the externs: no later one splits any of its parts. */
  predicate Clean(ps: seq<Prim>, ops: seq<string>)
    decreases |ops|
  {
    ops == []
    || if |Parts(ps, ops[0])| == 1 then Clean(ps, ops[1..])
       else forall p :: 0 <= p < |Parts(ps, ops[0])| ==> Unsplit(Parts(ps, ops[0])[p], ops[1..])
  }

  lemma {:induction false} UnsplitClean(ps: seq<Prim>, ops: seq<string>)
    requires Unsplit(ps, ops)
    ensures Clean(ps, ops)
    decreases |ops|
  {
    if ops != [] { UnsplitClean(ps, ops[1..]); }
  }

  /** An extern that is not found splits nothing. */
  lemma NotFound(ps: seq<Prim>, op: string)
    requires |Parts(ps, op)| == 1 && CountOp(ps, op) <= 1
    ensures Parts(ps, op) == [ps]
  {
    PartsSame(ps, op);
    JoinFew(Parts(ps, op)[0], [], []);
    assert Parts(ps, op) == [Parts(ps, op)[0]];
  }

  /** The names that splitting an action needs are no action's. */
  predicate FreshName(actions: seq<Action>, name: string) {
    forall i :: 0 <= i < |actions| ==> actions[i].name != name + Ending(1) && actions[i].name != name + Ending(2)
  }

  /** The conditions on the actions, all about the program before the first split. */
  predicate ActionsReady(actions: seq<Action>, ops: seq<string>) {
    && IdsArePositions(actions)
    && DistinctNames(actions)
    && (forall i :: 0 <= i < |ops| ==> AtMostOnce(actions, ops[i]))
    && (forall k :: 0 <= k < |actions| ==> Clean(actions[k].prims, ops))
    && (forall k :: 0 <= k < |actions| && !Unsplit(actions[k].prims, ops) ==> FreshName(actions, actions[k].name))
  }

  /** A table that is to become a chain has its names free. */
  predicate TableReady(actions: seq<Action>, ts: seq<Table>, ops: seq<string>, at: Option<string>, t: Table) {
    t.byDefault < |actions| && !Unsplit(actions[t.byDefault].prims, ops) ==> NamesFree(ts, t) && Avoids(at, t)
  }

  /** The conditions on the tables of a pipeline. */
  predicate PipelineReady(actions: seq<Action>, ts: seq<Table>, ops: seq<string>, at: Option<string>) {
    && (forall i :: 0 <= i < |ops| ==> PipelineOk(actions, ops[i], ts) && PipelineUses(actions, ops[i], ts))
    && DistinctTables(ts)
    && (forall i :: 0 <= i < |ts| ==> TableReady(actions, ts, ops, at, ts[i]))
  }

  // ---------- The actions after one split ----------

  /** A part's name is its action's with an ending that tells which part it is. */
  lemma PartEnding(a: Action, op: string, p: nat) returns (q: nat)
    requires p < |Parts(a.prims, op)|
    ensures PartName(a, op, p) == a.name + Ending(q) && q <= 2 && (p == 0 <==> q == 0)
    ensures p > 0 ==> q == if p == 1 && HasFront(a.prims, op) then 1 else 2
  {
    EndingZero(a.name);
    q := if p == 0 then 0 else if p == 1 && HasFront(a.prims, op) then 1 else 2;
  }

  /** Three parts only if the first one keeps primitives. */
  lemma ThirdPart(ps: seq<Prim>, op: string)
    requires |Parts(ps, op)| == 3
    ensures HasFront(ps, op)
  {
  }

  lemma PartNamesApart(actions: seq<Action>, op: string, i: nat, p: nat, i2: nat, p2: nat)
    requires DistinctNames(actions) && i < |actions| && i2 < |actions|
    requires p < |Parts(actions[i].prims, op)| && p2 < |Parts(actions[i2].prims, op)|
    requires IsSplit(actions[i], op) ==> FreshName(actions, actions[i].name)
    requires IsSplit(actions[i2], op) ==> FreshName(actions, actions[i2].name)
    requires PartName(actions[i], op, p) == PartName(actions[i2], op, p2)
    ensures i == i2 && p == p2
  {
    var q := PartEnding(actions[i], op, p);
    var q2 := PartEnding(actions[i2], op, p2);
    EndingZero(actions[i].name);
    EndingZero(actions[i2].name);
    if q > 0 && q2 > 0 {
      EndingApart(actions[i].name, actions[i2].name, q, q2);
      if p == 2 || p2 == 2 { ThirdPart(actions[i].prims, op); }
    }
  }

  lemma CleanPart(ps: seq<Prim>, op: string, rest: seq<string>, p: nat)
    requires Clean(ps, [op] + rest) && CountOp(ps, op) <= 1 && p < |Parts(ps, op)| && !Unsplit(Parts(ps, op)[p], rest)
    ensures p == 0 && Parts(ps, op) == [ps]
  {
    assert ([op] + rest)[0] == op && ([op] + rest)[1..] == rest;
    NotFound(ps, op);
  }

  lemma PartClean(ps: seq<Prim>, op: string, rest: seq<string>, p: nat)
    requires Clean(ps, [op] + rest) && CountOp(ps, op) <= 1 && p < |Parts(ps, op)|
    ensures Clean(Parts(ps, op)[p], rest)
  {
    assert ([op] + rest)[0] == op && ([op] + rest)[1..] == rest;
    if |Parts(ps, op)| == 1 { NotFound(ps, op); } else { UnsplitClean(Parts(ps, op)[p], rest); }
  }

  /** The action of the old program that a new action comes from, if an extern still to come splits it. */
  lemma LaterSplit(actions: seq<Action>, op: string, rest: seq<string>, news: seq<Action>, starts: seq<nat>, i: nat, p: nat, k: nat)
    requires PartAt(actions, op, news, starts, i, p) && k == starts[i] + p && Clean(actions[i].prims, [op] + rest)
    requires CountOp(actions[i].prims, op) <= 1 && !Unsplit(news[k].prims, rest)
    ensures p == 0 && k == starts[i] && !IsSplit(actions[i], op)
    ensures news[k].name == actions[i].name && news[k].prims == actions[i].prims
  {
    CleanPart(actions[i].prims, op, rest, p);
  }

  lemma UnsplitCons(ps: seq<Prim>, op: string, rest: seq<string>)
    ensures Unsplit(ps, [op] + rest) <==> |Parts(ps, op)| == 1 && Unsplit(ps, rest)
  {
    var all := [op] + rest;
    assert all[0] == op && forall i :: 0 <= i < |rest| ==> all[i + 1] == rest[i];
    if Unsplit(ps, all) {
      forall i | 0 <= i < |rest| ensures |Parts(ps, rest[i])| == 1 { assert all[i + 1] == rest[i]; }
    }
    if |Parts(ps, op)| == 1 && Unsplit(ps, rest) {
      forall i | 0 <= i < |all| ensures |Parts(ps, all[i])| == 1 {
        if i > 0 { assert all[i] == rest[i - 1]; }
      }
    }
  }

  /** What one split leaves of a list of actions, for the externs still to come. */
  datatype Step = Step(actions: seq<Action>, op: string, rest: seq<string>, news: seq<Action>, starts: seq<nat>) {
    ghost predicate Ok() { View(actions, op, news, starts) && ActionsReady(actions, [op] + rest) }

    /** New action k is old action i, which this split leaves whole. */
    predicate Kept(k: int, i: int) {
      && 0 <= i < |actions| == |starts|
      && 0 <= k == starts[i] < |news|
      && !IsSplit(actions[i], op)
      && news[k].name == actions[i].name && news[k].prims == actions[i].prims
    }
  }

  lemma StepFacts(s: Step, i: nat)
    requires s.Ok() && i < |s.actions|
    ensures CountOp(s.actions[i].prims, s.op) <= 1 && Clean(s.actions[i].prims, [s.op] + s.rest)
    ensures IsSplit(s.actions[i], s.op) || !Unsplit(s.actions[i].prims, s.rest) ==> FreshName(s.actions, s.actions[i].name)
  {
    assert ([s.op] + s.rest)[0] == s.op && AtMostOnce(s.actions, ([s.op] + s.rest)[0]);
    UnsplitCons(s.actions[i].prims, s.op, s.rest);
  }

  lemma StepFrom(s: Step, k: nat) returns (i: nat, p: nat)
    requires s.Ok() && k < |s.news|
    ensures PartAt(s.actions, s.op, s.news, s.starts, i, p) && k == s.starts[i] + p
  {
    assert FromPart(s.actions, s.op, s.news, s.starts, k);
    var i0, p0 :| PartAt(s.actions, s.op, s.news, s.starts, i0, p0) && k == s.starts[i0] + p0;
    i, p := i0, p0;
  }

  /** A new action that is split later was not split now. */
  lemma KeptFrom(s: Step, k: nat) returns (i: nat)
    requires s.Ok() && k < |s.news| && !Unsplit(s.news[k].prims, s.rest)
    ensures s.Kept(k, i) && !Unsplit(s.actions[i].prims, s.rest)
  {
    var p;
    i, p := StepFrom(s, k);
    StepFacts(s, i);
    LaterSplit(s.actions, s.op, s.rest, s.news, s.starts, i, p, k);
  }

  lemma NewNames(s: Step)
    requires s.Ok()
    ensures DistinctNames(s.news)
  {
    forall k, l | 0 <= k < l < |s.news| ensures s.news[k].name != s.news[l].name {
      var i, p := StepFrom(s, k);
      var i2, p2 := StepFrom(s, l);
      StepFacts(s, i);
      StepFacts(s, i2);
      if s.news[k].name == s.news[l].name { PartNamesApart(s.actions, s.op, i, p, i2, p2); }
    }
  }

  /** The name of a whole action with an ending is no part's name. */
  lemma NotPartName(actions: seq<Action>, op: string, i: nat, i2: nat, p2: nat, j: nat)
    requires DistinctNames(actions) && i < |actions| && i2 < |actions| && p2 < |Parts(actions[i2].prims, op)|
    requires !IsSplit(actions[i], op) && FreshName(actions, actions[i].name) && 0 < j <= 2
    ensures PartName(actions[i2], op, p2) != actions[i].name + Ending(j)
  {
    var q2 := PartEnding(actions[i2], op, p2);
    EndingZero(actions[i2].name);
    if q2 > 0 && actions[i2].name + Ending(q2) == actions[i].name + Ending(j) {
      EndingApart(actions[i2].name, actions[i].name, q2, j);
    }
  }

  lemma NewFresh(s: Step, k: nat)
    requires s.Ok() && k < |s.news| && !Unsplit(s.news[k].prims, s.rest)
    ensures FreshName(s.news, s.news[k].name)
  {
    var i := KeptFrom(s, k);
    StepFacts(s, i);
    forall l | 0 <= l < |s.news|
      ensures s.news[l].name != s.news[k].name + Ending(1) && s.news[l].name != s.news[k].name + Ending(2)
    {
      var i2, p2 := StepFrom(s, l);
      NotPartName(s.actions, s.op, i, i2, p2, 1);
      NotPartName(s.actions, s.op, i, i2, p2, 2);
    }
  }

  lemma PartAtClean(actions: seq<Action>, op: string, rest: seq<string>, news: seq<Action>, starts: seq<nat>, i: nat, p: nat, k: nat)
    requires PartAt(actions, op, news, starts, i, p) && k == starts[i] + p && Clean(actions[i].prims, [op] + rest)
    requires CountOp(actions[i].prims, op) <= 1
    ensures Clean(news[k].prims, rest) && news[k].id == k
  {
    PartClean(actions[i].prims, op, rest, p);
  }

  lemma NewClean(s: Step, k: nat)
    requires s.Ok() && k < |s.news|
    ensures Clean(s.news[k].prims, s.rest) && s.news[k].id == k
  {
    var i, p := StepFrom(s, k);
    StepFacts(s, i);
    PartAtClean(s.actions, s.op, s.rest, s.news, s.starts, i, p, k);
  }

  /** The conditions on the actions are kept for the externs still to come. */
  lemma ActionsKept(s: Step)
    requires s.Ok() && s.news == NewActions(s.actions, s.op)
    ensures ActionsReady(s.news, s.rest)
  {
    NewNames(s);
    var all := [s.op] + s.rest;
    forall i | 0 <= i < |s.rest| ensures AtMostOnce(s.news, s.rest[i]) {
      assert all[0] == s.op && all[i + 1] == s.rest[i];
      assert AtMostOnce(s.actions, all[0]) && AtMostOnce(s.actions, all[i + 1]);
      NewActionsOnce(s.actions, s.op, s.rest[i]);
    }
    forall k | 0 <= k < |s.news| ensures Clean(s.news[k].prims, s.rest) && s.news[k].id == k { NewClean(s, k); }
    forall k | 0 <= k < |s.news| && !Unsplit(s.news[k].prims, s.rest) ensures FreshName(s.news, s.news[k].name) { NewFresh(s, k); }
  }

  // ---------- The tables after one split ----------

  function StepOf(s: Setting, rest: seq<string>): Step { Step(s.actions, s.op, rest, s.news, s.starts) }

  /** One split of a pipeline in a program that is ready for all the externs. */
  ghost predicate Ready(s: Setting, rest: seq<string>, at: Option<string>) {
    s.Ok() && StepOf(s, rest).Ok() && PipelineReady(s.actions, s.ts, [s.op] + rest, at)
  }

  lemma ReadyNames(s: Setting, rest: seq<string>, at: Option<string>)
    requires Ready(s, rest, at)
    ensures NamesOk(s.actions, s.op, s.ts, at)
  {
    forall i | 0 <= i < |s.ts| && s.ts[i].byDefault < |s.actions| && IsSplit(s.actions[s.ts[i].byDefault], s.op)
      ensures NamesFree(s.ts, s.ts[i]) && Avoids(at, s.ts[i])
    {
      UnsplitCons(s.actions[s.ts[i].byDefault].prims, s.op, rest);
      assert TableReady(s.actions, s.ts, [s.op] + rest, at, s.ts[i]);
    }
  }

  /** A new table whose action is split later is an old table, unchanged but for its ids. */
  lemma TableKept(s: Setting, rest: seq<string>, at: Option<string>, i: nat, j: nat, t: Table)
    requires Ready(s, rest, at) && s.TableAt(i, j, t) && t.byDefault < |s.news|
    requires !Unsplit(s.news[t.byDefault].prims, rest)
    ensures j == 0 && StepOf(s, rest).Kept(t.byDefault, s.ts[i].byDefault)
    ensures !Unsplit(s.actions[s.ts[i].byDefault].prims, rest)
    ensures t.name == s.ts[i].name && t.actions == s.ts[i].actions
  {
    var d := s.ts[i].byDefault;
    assert PartAt(s.actions, s.op, s.news, s.starts, d, j);
    StepFacts(StepOf(s, rest), d);
    LaterSplit(s.actions, s.op, rest, s.news, s.starts, d, j, t.byDefault);
    EndingZero(s.ts[i].name);
  }

  lemma OtherEnding(a: string, b: string, i: nat, j: nat)
    requires 0 < i <= 2 && 0 < j <= 2 && a != b
    ensures a + Ending(i) != b + Ending(j)
  {
    if a + Ending(i) == b + Ending(j) { EndingApart(a, b, i, j); }
  }

  /** Old table i2 is split, old table i is not: what the chain of the one is named is not what the other would need. */
  lemma ChainApart(ts: seq<Table>, i: nat, i2: nat, j2: nat, q: nat)
    requires DistinctTables(ts) && i < |ts| && i2 < |ts| && i != i2 && 0 < j2 <= 2 && 0 < q <= 2
    ensures ts[i2].name + Ending(j2) != ts[i].name + Ending(q)
  {
    assert ts[i].name != ts[i2].name;
    OtherEnding(ts[i2].name, ts[i].name, j2, q);
  }

  /** The names that a later chain needs stay free. */
  lemma StaysFree(s: Setting, i: nat, i2: nat, j2: nat, t2: Table, q: nat)
    requires s.Ok() && DistinctTables(s.ts) && i < |s.ts| && NamesFree(s.ts, s.ts[i]) && s.TableAt(i2, j2, t2) && 0 < q <= 2
    requires s.ts[i].byDefault < |s.actions| && !IsSplit(s.actions[s.ts[i].byDefault], s.op)
    ensures t2.name != s.ts[i].name + Ending(q) && t2.next != Some(s.ts[i].name + Ending(q))
  {
    NewName(s, i2, j2, t2);
    var extra := |Parts(s.actions[s.ts[i2].byDefault].prims, s.op)| - 1;
    if j2 > 0 { ChainApart(s.ts, i, i2, j2, q); }
    if j2 < extra { ChainApart(s.ts, i, i2, j2 + 1, q); }
  }

  lemma TablesReady(s: Setting, rest: seq<string>, at: Option<string>, k: nat)
    requires Ready(s, rest, at) && k < |s.ns|
    ensures TableReady(s.news, s.ns, rest, at, s.ns[k])
  {
    var i, j := TableFrom(s, k);
    if s.ns[k].byDefault < |s.news| && !Unsplit(s.news[s.ns[k].byDefault].prims, rest) {
      TableKept(s, rest, at, i, j, s.ns[k]);
      UnsplitCons(s.actions[s.ts[i].byDefault].prims, s.op, rest);
      assert TableReady(s.actions, s.ts, [s.op] + rest, at, s.ts[i]);
      forall l | 0 <= l < |s.ns|
        ensures s.ns[l].name != s.ts[i].name + Ending(1) && s.ns[l].next != Some(s.ts[i].name + Ending(1))
        ensures s.ns[l].name != s.ts[i].name + Ending(2) && s.ns[l].next != Some(s.ts[i].name + Ending(2))
      {
        var i2, j2 := TableFrom(s, l);
        StaysFree(s, i, i2, j2, s.ns[l], 1);
        StaysFree(s, i, i2, j2, s.ns[l], 2);
      }
    }
  }

  lemma NewInRange(s: Setting, i: nat, j: nat, t: Table)
    requires s.Ok() && s.TableAt(i, j, t)
    ensures InRange(s.news, t)
  {
    assert PartAt(s.actions, s.op, s.news, s.starts, s.ts[i].byDefault, j);
    forall k | 0 <= k < |t.actionIds| ensures t.actionIds[k] < |s.news| {
      if |Parts(s.actions[s.ts[i].byDefault].prims, s.op)| == 1 {
        assert PartAt(s.actions, s.op, s.news, s.starts, s.ts[i].actionIds[k], 0);
      }
    }
  }

  /** The tables of a chain do not name an action that was left whole. */
  lemma ChainNames(s: Setting, rest: seq<string>, at: Option<string>, i: nat, j: nat, t: Table, i0: nat)
    requires Ready(s, rest, at) && s.TableAt(i, j, t) && IsSplit(s.actions[s.ts[i].byDefault], s.op)
    requires i0 < |s.actions| && !IsSplit(s.actions[i0], s.op)
    ensures s.actions[i0].name !in t.actions
  {
    var d := s.ts[i].byDefault;
    StepFacts(StepOf(s, rest), d);
    assert FreshName(s.actions, s.actions[d].name);
    assert s.actions[i0].name != s.actions[d].name + Ending(1);
    assert d != i0 && s.actions[d].name != s.actions[i0].name;
  }

  /** A table that names a later action has only that action. */
  lemma StillOnly(s: Setting, rest: seq<string>, at: Option<string>, other: string, i: nat, j: nat, t: Table, i0: nat, k: nat)
    requires Ready(s, rest, at) && s.TableAt(i, j, t) && TableOk(s.actions, other, s.ts[i])
    requires StepOf(s, rest).Kept(k, i0) && Lists(s.news, other, t, k)
    ensures OnlyAction(s.news, t, k)
  {
    var d := s.ts[i].byDefault;
    if IsSplit(s.actions[d], s.op) {
      ChainNames(s, rest, at, i, j, t, i0);
    } else {
      assert Lists(s.actions, other, s.ts[i], i0);
      assert OnlyAction(s.actions, s.ts[i], i0);
      assert t.actionIds == [k];
    }
  }

  lemma RestAt(op: string, rest: seq<string>, x: nat)
    requires x < |rest|
    ensures ([op] + rest)[x + 1] == rest[x]
  {
  }

  lemma NewTableOk(s: Setting, rest: seq<string>, at: Option<string>, x: nat, i: nat, j: nat, t: Table)
    requires Ready(s, rest, at) && x < |rest| && s.TableAt(i, j, t)
    ensures TableOk(s.news, rest[x], t) && Uses(s.news, rest[x], t)
  {
    var other := rest[x];
    RestAt(s.op, rest, x);
    assert PipelineOk(s.actions, ([s.op] + rest)[x + 1], s.ts) && PipelineUses(s.actions, ([s.op] + rest)[x + 1], s.ts);
    assert TableOk(s.actions, other, s.ts[i]) && Uses(s.actions, other, s.ts[i]);
    NewInRange(s, i, j, t);
    forall k | 0 <= k < |s.news| && Lists(s.news, other, t, k) ensures OnlyAction(s.news, t, k) {
      assert |Parts(s.news[k].prims, rest[x])| > 1;
      var i0 := KeptFrom(StepOf(s, rest), k);
      StillOnly(s, rest, at, other, i, j, t, i0, k);
    }
    if IsSplit(s.news[t.byDefault], other) {
      assert |Parts(s.news[t.byDefault].prims, rest[x])| > 1;
      TableKept(s, rest, at, i, j, t);
    }
  }

  /** The conditions on the tables are kept for the externs still to come. */
  lemma PipelineKept(s: Setting, rest: seq<string>, at: Option<string>)
    requires Ready(s, rest, at)
    ensures PipelineReady(s.news, s.ns, rest, at)
  {
    forall x | 0 <= x < |rest| ensures PipelineOk(s.news, rest[x], s.ns) && PipelineUses(s.news, rest[x], s.ns) {
      forall k | 0 <= k < |s.ns| ensures TableOk(s.news, rest[x], s.ns[k]) && Uses(s.news, rest[x], s.ns[k]) {
        var i, j := TableFrom(s, k);
        NewTableOk(s, rest, at, x, i, j, s.ns[k]);
      }
    }
    ReadyNames(s, rest, at);
    NewDistinct(s, at);
    forall k | 0 <= k < |s.ns| ensures TableReady(s.news, s.ns, rest, at, s.ns[k]) { TablesReady(s, rest, at, k); }
  }

  // ---------- All the splits ----------

  /** Whatever the one pipeline runs, the other runs too, in some number of steps. */
  ghost predicate RunsLike(actions: seq<Action>, ts: seq<Table>, news: seq<Action>, ns: seq<Table>, at: Option<string>) {
    forall n: nat :: Reached(actions, ts, news, ns, at, n)
  }

  ghost predicate Reached(actions: seq<Action>, ts: seq<Table>, news: seq<Action>, ns: seq<Table>, at: Option<string>, n: nat) {
    exists m: nat :: m >= n && Run(news, ns, at, m) == Run(actions, ts, at, n)
  }

  lemma RunsLikeTrans(a: seq<Action>, ts: seq<Table>, b: seq<Action>, us: seq<Table>, c: seq<Action>, vs: seq<Table>, at: Option<string>)
    requires RunsLike(a, ts, b, us, at) && RunsLike(b, us, c, vs, at)
    ensures RunsLike(a, ts, c, vs, at)
  {
    forall n: nat ensures Reached(a, ts, c, vs, at, n) {
      assert Reached(a, ts, b, us, at, n);
      var m: nat :| m >= n && Run(b, us, at, m) == Run(a, ts, at, n);
      assert Reached(b, us, c, vs, at, m);
      var l: nat :| l >= m && Run(c, vs, at, l) == Run(b, us, at, m);
    }
  }

  /** One split of a program that is ready for all the externs: ready for the rest, and every run is kept. */
  lemma SplitKept(actions: seq<Action>, ts: seq<Table>, op: string, rest: seq<string>, offset: nat, at: Option<string>)
    requires ActionsReady(actions, [op] + rest) && PipelineReady(actions, ts, [op] + rest, at)
    ensures PipelineOk(actions, op, ts) && ActionsReady(NewActions(actions, op), rest)
    ensures PipelineReady(NewActions(actions, op), SplitPipelineTo(actions, op, ts, offset), rest, at)
    ensures RunsLike(actions, ts, NewActions(actions, op), SplitPipelineTo(actions, op, ts, offset), at)
  {
    var all := [op] + rest;
    assert all[0] == op && PipelineOk(actions, all[0], ts) && PipelineUses(actions, all[0], ts) && AtMostOnce(actions, all[0]);
    SettingOk(actions, op, ts, offset);
    var s := SettingOf(actions, op, ts, offset);
    ActionsKept(StepOf(s, rest));
    PipelineKept(s, rest, at);
    ReadyNames(s, rest, at);
    forall n: nat ensures Reached(actions, ts, s.news, s.ns, at, n) {
      var m := SameRun(actions, op, ts, offset, at, n);
    }
  }

  /** What the splits so far have made of a pipeline, seen from a starting point. */
  ghost predicate Carried(actions: seq<Action>, ts: seq<Table>, ops: seq<string>, news: seq<Action>, ns: seq<Table>, rest: seq<string>, at: Option<string>) {
    PipelineReady(actions, ts, ops, at) ==> PipelineReady(news, ns, rest, at) && RunsLike(actions, ts, news, ns, at)
  }

  lemma CarriedOn(actions: seq<Action>, ts: seq<Table>, ops: seq<string>, news: seq<Action>, ns: seq<Table>,
                  op: string, rest: seq<string>, offset: nat, at: Option<string>)
    requires ActionsReady(news, [op] + rest) && PipelineOk(news, op, ns) && Carried(actions, ts, ops, news, ns, [op] + rest, at)
    ensures Carried(actions, ts, ops, NewActions(news, op), SplitPipelineTo(news, op, ns, offset), rest, at)
  {
    if PipelineReady(actions, ts, ops, at) {
      SplitKept(news, ns, op, rest, offset, at);
      RunsLikeTrans(actions, ts, news, ns, NewActions(news, op), SplitPipelineTo(news, op, ns, offset), at);
    }
  }

  ghost predicate AllReady(actions: seq<Action>, pipelines: seq<seq<Table>>, ops: seq<string>) {
    ActionsReady(actions, ops) && forall p :: 0 <= p < |pipelines| ==> PipelineReady(actions, pipelines[p], ops, None)
  }

  ghost predicate AllCarried(actions: seq<Action>, pipelines: seq<seq<Table>>, ops: seq<string>, news: seq<Action>, done: seq<seq<Table>>, rest: seq<string>) {
    && |done| == |pipelines|
    && forall p, at :: 0 <= p < |pipelines| ==> Carried(actions, pipelines[p], ops, news, done[p], rest, at)
  }

  lemma StartCarried(actions: seq<Action>, pipelines: seq<seq<Table>>, ops: seq<string>)
    ensures AllCarried(actions, pipelines, ops, actions, pipelines, ops)
  {
    forall p, at | 0 <= p < |pipelines| ensures Carried(actions, pipelines[p], ops, actions, pipelines[p], ops, at) {
      forall n: nat ensures Reached(actions, pipelines[p], actions, pipelines[p], at, n) {
        assert Run(actions, pipelines[p], at, n) == Run(actions, pipelines[p], at, n) && n >= n;
      }
    }
  }

  /** The next split of all pipelines. */
  lemma AllCarriedOn(actions: seq<Action>, pipelines: seq<seq<Table>>, ops: seq<string>, news: seq<Action>, done: seq<seq<Table>>,
                     op: string, rest: seq<string>, next: seq<seq<Table>>)
    requires AllReady(news, done, [op] + rest) && AllCarried(actions, pipelines, ops, news, done, [op] + rest)
    requires |next| == |done| && forall p :: 0 <= p < |done| ==> SplitAt(news, op, done, next, p)
    ensures AllReady(NewActions(news, op), next, rest) && AllCarried(actions, pipelines, ops, NewActions(news, op), next, rest)
  {
    ViewOf(news, op);
    ActionsKept(Step(news, op, rest, NewActions(news, op), Starts(news, op)));
    forall p | 0 <= p < |next| ensures PipelineReady(NewActions(news, op), next[p], rest, None) {
      assert SplitAt(news, op, done, next, p);
      SplitKept(news, done[p], op, rest, OffsetOf(news, op, done, p), None);
    }
    forall p, at | 0 <= p < |next| ensures Carried(actions, pipelines[p], ops, NewActions(news, op), next[p], rest, at) {
      assert SplitAt(news, op, done, next, p) && Carried(actions, pipelines[p], ops, news, done[p], [op] + rest, at);
      CarriedOn(actions, pipelines[p], ops, news, done[p], op, rest, OffsetOf(news, op, done, p), at);
    }
  }

  /** Every pipeline runs what it ran, from every starting point that its new names avoid. */
  ghost predicate AllRunLike(actions: seq<Action>, pipelines: seq<seq<Table>>, ops: seq<string>, news: seq<Action>, done: seq<seq<Table>>) {
    && |done| == |pipelines|
    && forall p, at :: 0 <= p < |pipelines| && PipelineReady(actions, pipelines[p], ops, at) ==>
         RunsLike(actions, pipelines[p], news, done[p], at)
  }

  lemma AllRuns(actions: seq<Action>, pipelines: seq<seq<Table>>, ops: seq<string>, news: seq<Action>, done: seq<seq<Table>>, rest: seq<string>)
    requires AllCarried(actions, pipelines, ops, news, done, rest)
    ensures AllRunLike(actions, pipelines, ops, news, done)
  {
    forall p, at | 0 <= p < |pipelines| && PipelineReady(actions, pipelines[p], ops, at)
      ensures RunsLike(actions, pipelines[p], news, done[p], at)
    {
      assert Carried(actions, pipelines[p], ops, news, done[p], rest, at);
    }
  }

  lemma ReadyOk(actions: seq<Action>, pipelines: seq<seq<Table>>, ops: seq<string>)
    requires AllReady(actions, pipelines, ops) && ops != []
    ensures AllPipelinesOk(actions, ops[0], pipelines)
  {
    forall p | 0 <= p < |pipelines| ensures PipelineOk(actions, ops[0], pipelines[p]) {
      assert PipelineReady(actions, pipelines[p], ops, None);
    }
  }

  /** The first k externs are done. */
  ghost predicate Progress(actions: seq<Action>, pipelines: seq<seq<Table>>, ops: seq<string>, k: nat, news: seq<Action>, done: seq<seq<Table>>) {
    && k <= |ops|
    && news == SplitAll(actions, ops[..k])
    && AllReady(news, done, ops[k..])
    && AllCarried(actions, pipelines, ops, news, done, ops[k..])
  }

  lemma ProgressStart(actions: seq<Action>, pipelines: seq<seq<Table>>, ops: seq<string>)
    requires AllReady(actions, pipelines, ops)
    ensures Progress(actions, pipelines, ops, 0, actions, pipelines)
  {
    assert ops[0..] == ops && ops[..0] == [];
    StartCarried(actions, pipelines, ops);
  }

  lemma ProgressStep(actions: seq<Action>, pipelines: seq<seq<Table>>, ops: seq<string>, k: nat, news: seq<Action>, done: seq<seq<Table>>, next: seq<seq<Table>>)
    requires k < |ops| && Progress(actions, pipelines, ops, k, news, done)
    requires |next| == |done| && forall p :: 0 <= p < |done| ==> SplitAt(news, ops[k], done, next, p)
    ensures Progress(actions, pipelines, ops, k + 1, NewActions(news, ops[k]), next)
  {
    assert ops[k..] == [ops[k]] + ops[k + 1..];
    AllCarriedOn(actions, pipelines, ops, news, done, ops[k], ops[k + 1..], next);
    assert ops[..k + 1][..k] == ops[..k];
  }

  /** What the next split requires of the program. */
  lemma ProgressOk(actions: seq<Action>, pipelines: seq<seq<Table>>, ops: seq<string>, k: nat, news: seq<Action>, done: seq<seq<Table>>)
    requires k < |ops| && Progress(actions, pipelines, ops, k, news, done)
    ensures IdsArePositions(news) && DistinctNames(news) && AllPipelinesOk(news, ops[k], done)
  {
    ReadyOk(news, done, ops[k..]);
  }

  /**
   * The script's loop: split_op for every extern. Every pipeline of a program that is ready for the externs goes on
   * running what it ran, from every starting point that its new names avoid.
   */
  method SplitOps(program: Program, ops: seq<string>)
    requires AllReady(program.actions, program.pipelines, ops)
    modifies program
    ensures program.actions == SplitAll(old(program.actions), ops)
    ensures AllRunLike(old(program.actions), old(program.pipelines), ops, program.actions, program.pipelines)
  {
    ghost var actions, pipelines := program.actions, program.pipelines;
    ProgressStart(actions, pipelines, ops);
    for k := 0 to |ops|
      invariant Progress(actions, pipelines, ops, k, program.actions, program.pipelines)
    {
      ghost var news, done := program.actions, program.pipelines;
      ProgressOk(actions, pipelines, ops, k, news, done);
      program.SplitOp(ops[k]);
      ProgressStep(actions, pipelines, ops, k, news, done, program.pipelines);
    }
    assert ops[..|ops|] == ops;
    AllRuns(actions, pipelines, ops, program.actions, program.pipelines, ops[|ops|..]);
  }
}
