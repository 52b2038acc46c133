/** The split keeps what a pipeline runs: the same primitives, and the same table in the end. */
module ExternMeaning {
  import opened Common
  import opened ExternActions
  import opened ExternTables

  function Find(ts: seq<Table>, name: string): Option<Table> {
    if ts == [] then None else if ts[0].name == name then Some(ts[0]) else Find(ts[1..], name)
  }

  predicate DistinctTables(ts: seq<Table>) { forall i, j :: 0 <= i < j < |ts| ==> ts[i].name != ts[j].name }

  lemma {:induction false} FindAt(ts: seq<Table>, i: nat)
    requires DistinctTables(ts) && i < |ts|
    ensures Find(ts, ts[i].name) == Some(ts[i])
    decreases |ts|
  {
    if i > 0 { FindAt(ts[1..], i - 1); }
  }

  lemma {:induction false} FindSome(ts: seq<Table>, name: string) returns (i: nat)
    requires Find(ts, name).Some?
    ensures i < |ts| && ts[i].name == name && Find(ts, name) == Some(ts[i])
    decreases |ts|
  {
    if ts[0].name == name {
      i := 0;
    } else {
      i := FindSome(ts[1..], name);
      i := i + 1;
    }
  }

  lemma {:induction false} FindNone(ts: seq<Table>, name: string)
    ensures Find(ts, name).None? <==> forall i :: 0 <= i < |ts| ==> ts[i].name != name
    decreases |ts|
  {
    if ts != [] {
      FindNone(ts[1..], name);
      assert forall i :: 1 <= i < |ts| ==> ts[i] == ts[1..][i - 1];
    }
  }

  // ---------- Running a pipeline ----------

  /** The primitives run by following default actions and default successors for n tables, and where that leads. */
  function Run(actions: seq<Action>, ts: seq<Table>, at: Option<string>, n: nat): (seq<Prim>, Option<string>)
    decreases n
  {
    if n == 0 || at.None? then ([], at)
    else
      match Find(ts, at.value)
      case None => ([], at)
      case Some(t) =>
        if t.byDefault >= |actions| then ([], at)
        else
          var rest := Run(actions, ts, t.next, n - 1);
          (actions[t.byDefault].prims + rest.0, rest.1)
  }

  /** Nothing runs from here. */
  predicate Stuck(actions: seq<Action>, ts: seq<Table>, at: Option<string>) {
    at.None? || Find(ts, at.value).None? || Find(ts, at.value).value.byDefault >= |actions|
  }

  lemma {:induction false} RunCompose(actions: seq<Action>, ts: seq<Table>, at: Option<string>, n: nat, m: nat)
    ensures var (p, to) := Run(actions, ts, at, n);
      var (q, end) := Run(actions, ts, to, m);
      Run(actions, ts, at, n + m) == (p + q, end)
    decreases n
  {
    if n == 0 {
      assert [] + Run(actions, ts, at, m).0 == Run(actions, ts, at, m).0;
    } else if !Stuck(actions, ts, at) {
      var t := Find(ts, at.value).value;
      RunCompose(actions, ts, t.next, n - 1, m);
      var a := actions[t.byDefault].prims;
      var (p, to) := Run(actions, ts, t.next, n - 1);
      var (q, end) := Run(actions, ts, to, m);
      assert a + (p + q) == a + p + q;
    } else {
      var none: seq<Prim> := [];
      assert none + none == none;
      assert Run(actions, ts, at, n) == (none, at) && Run(actions, ts, at, m) == (none, at);
    }
  }

  // ---------- One chain ----------

  /** The tables of a chain can be found, run the parts in turn, and lead from one to the next. */
  ghost predicate Runs(news: seq<Action>, ns: seq<Table>, group: seq<Table>, parts: seq<seq<Prim>>, next: Option<string>) {
    && |group| == |parts|
    && forall j :: 0 <= j < |group| ==> RunsAt(news, ns, group, parts, next, j)
  }

  ghost predicate RunsAt(news: seq<Action>, ns: seq<Table>, group: seq<Table>, parts: seq<seq<Prim>>, next: Option<string>, j: int) {
    && 0 <= j < |group| == |parts|
    && Find(ns, group[j].name) == Some(group[j])
    && group[j].byDefault < |news|
    && news[group[j].byDefault].prims == parts[j]
    && group[j].next == if j + 1 < |group| then Some(group[j + 1].name) else next
  }

  lemma {:induction false} ChainRuns(news: seq<Action>, ns: seq<Table>, group: seq<Table>, parts: seq<seq<Prim>>, next: Option<string>, j: nat)
    requires Runs(news, ns, group, parts, next) && j < |group|
    ensures Run(news, ns, Some(group[j].name), |group| - j) == (Join(parts[j..]), next)
    decreases |group| - j
  {
    assert RunsAt(news, ns, group, parts, next, j);
    var rest := parts[j..];
    assert rest[0] == parts[j] && rest[1..] == parts[j + 1..];
    if j + 1 < |group| {
      ChainRuns(news, ns, group, parts, next, j + 1);
    } else {
      assert parts[j + 1..] == [];
      assert Run(news, ns, next, 0) == ([], next);
      assert Join([]) == [];
    }
  }

  // ---------- One split ----------

  /** Part p of action i among the new actions. */
  predicate PartAt(actions: seq<Action>, op: string, news: seq<Action>, starts: seq<nat>, i: int, p: int) {
    && 0 <= i < |actions| == |starts|
    && 0 <= p < |Parts(actions[i].prims, op)|
    && starts[i] + p < |news|
    && news[starts[i] + p] == Action(PartName(actions[i], op, p), starts[i] + p, Parts(actions[i].prims, op)[p])
  }

  ghost predicate FromPart(actions: seq<Action>, op: string, news: seq<Action>, starts: seq<nat>, k: int) {
    exists i, p :: PartAt(actions, op, news, starts, i, p) && k == starts[i] + p
  }

  /** The new actions are the parts of the old ones. */
  ghost predicate View(actions: seq<Action>, op: string, news: seq<Action>, starts: seq<nat>) {
    && |starts| == |actions|
    && (forall i, p | 0 <= i < |actions| && 0 <= p < |Parts(actions[i].prims, op)| :: PartAt(actions, op, news, starts, i, p))
    && (forall k :: 0 <= k < |news| ==> FromPart(actions, op, news, starts, k))
  }

  lemma PartIsAt(actions: seq<Action>, op: string, i: nat, p: nat)
    requires i < |actions| && p < |Parts(actions[i].prims, op)|
    ensures PartAt(actions, op, NewActions(actions, op), Starts(actions, op), i, p)
  {
    NewActionsAt(actions, op, i, p);
  }

  lemma IsFromPart(actions: seq<Action>, op: string, k: nat)
    requires k < |NewActions(actions, op)|
    ensures FromPart(actions, op, NewActions(actions, op), Starts(actions, op), k)
  {
    var i, p := NewActionsFrom(actions, op, k);
    PartIsAt(actions, op, i, p);
  }

  lemma ViewOf(actions: seq<Action>, op: string)
    ensures View(actions, op, NewActions(actions, op), Starts(actions, op))
  {
    forall i: nat, p: nat | i < |actions| && p < |Parts(actions[i].prims, op)|
      ensures PartAt(actions, op, NewActions(actions, op), Starts(actions, op), i, p)
    {
      PartIsAt(actions, op, i, p);
    }
    forall k: nat | k < |NewActions(actions, op)|
      ensures FromPart(actions, op, NewActions(actions, op), Starts(actions, op), k)
    {
      IsFromPart(actions, op, k);
    }
  }

  /** A table whose default action is split names it. */
  predicate Uses(actions: seq<Action>, op: string, t: Table)
    requires InRange(actions, t)
  {
    IsSplit(actions[t.byDefault], op) ==> actions[t.byDefault].name in t.actions
  }

  /** What the place of a table is: a chain of as many tables as its action has parts. */
  lemma PlaceIs(actions: seq<Action>, op: string, starts: seq<nat>, t: Table)
    requires TableOk(actions, op, t) && Uses(actions, op, t) && |starts| == |actions|
    ensures var p := PlaceWith(actions, op, starts, t);
      && p.first == starts[t.byDefault] && p.extra == |Parts(actions[t.byDefault].prims, op)| - 1
      && (p.extra > 0 ==> OnlyAction(actions, t, t.byDefault) && p.ids == [p.first] && p.lbl == Label(actions[t.byDefault], op))
      && (p.extra == 0 ==> p.ids == Renumbered(t.actionIds, starts))
  {
    ListedIs(actions, op, t);
    var r := ListedIn(actions, op, t);
    if r.Some? { assert OnlyAction(actions, t, r.value); }
    assert r.None? ==> !Lists(actions, op, t, t.byDefault);
  }

  /** Everything about one split of one pipeline: actions and tables before and after. */
  datatype Setting = Setting(
    actions: seq<Action>, op: string, ts: seq<Table>, offset: nat,
    news: seq<Action>, starts: seq<nat>, places: seq<Place>, groups: seq<seq<Table>>, ns: seq<Table>)
  {
    predicate InOrder(i: int) {
      0 <= i < |ts| == |places| && TableOk(actions, op, ts[i]) && Uses(actions, op, ts[i])
      && |starts| == |actions| && places[i] == PlaceWith(actions, op, starts, ts[i])
    }

    ghost predicate Ok() {
      && View(actions, op, news, starts)
      && |places| == |ts| == |groups|
      && (forall i :: 0 <= i < |ts| ==> InOrder(i))
      && GroupsAre(ts, places, groups, offset)
      && ns == Flat(groups, |ts|)
    }

    /** Table j of the chain of table i. */
    predicate TableAt(i: int, j: int, t: Table) {
      && 0 <= i < |ts| && ts[i].byDefault < |actions| == |starts|
      && 0 <= j < |Parts(actions[ts[i].byDefault].prims, op)|
      && var extra := |Parts(actions[ts[i].byDefault].prims, op)| - 1;
         && t.name == ts[i].name + Ending(j)
         && t.byDefault == starts[ts[i].byDefault] + j
         && t.next == (if j < extra then Some(ts[i].name + Ending(j + 1)) else ts[i].next)
         && (extra == 0 ==> t.actions == ts[i].actions && t.nextTables == ts[i].nextTables)
         && (extra == 0 ==> InRange(actions, ts[i]) && t.actionIds == Renumbered(ts[i].actionIds, starts))
         && (extra > 0 ==> OnlyAction(actions, ts[i], ts[i].byDefault) && t.actionIds == [t.byDefault])
         && (extra > 0 ==> t.actions == if j == 0 then ts[i].actions else [Label(actions[ts[i].byDefault], op)])
    }
  }

  predicate PipelineOk(actions: seq<Action>, op: string, ts: seq<Table>) { forall i :: 0 <= i < |ts| ==> TableOk(actions, op, ts[i]) }

  predicate PipelineUses(actions: seq<Action>, op: string, ts: seq<Table>) {
    forall i :: 0 <= i < |ts| ==> InRange(actions, ts[i]) && Uses(actions, op, ts[i])
  }

  function PlacesOf(actions: seq<Action>, op: string, ts: seq<Table>): (r: seq<Place>)
    requires PipelineOk(actions, op, ts)
    ensures |r| == |ts| && forall i :: 0 <= i < |ts| ==> r[i] == PlaceWith(actions, op, Starts(actions, op), ts[i])
  {
    seq<Place>(|ts|, i requires 0 <= i < |ts| => PlaceWith(actions, op, Starts(actions, op), ts[i]))
  }

  lemma PlacesRewritable(actions: seq<Action>, op: string, ts: seq<Table>)
    requires PipelineOk(actions, op, ts)
    ensures Rewritable(ts, PlacesOf(actions, op, ts))
  {
    forall i | 0 <= i < |ts| && PlacesOf(actions, op, ts)[i].extra > 0
      ensures Extensible(Moved(ts[i], PlacesOf(actions, op, ts)[i], 0))
    {
      ListedIs(actions, op, ts[i]);
      var k := ListedIn(actions, op, ts[i]).value;
      assert OnlyAction(actions, ts[i], k);
    }
  }

  /** split_op on the tables of a pipeline. */
  ghost function SplitPipelineTo(actions: seq<Action>, op: string, ts: seq<Table>, offset: nat): seq<Table>
    requires PipelineOk(actions, op, ts)
  {
    PlacesRewritable(actions, op, ts);
    NewTables(ts, PlacesOf(actions, op, ts), offset)
  }

  ghost function SettingOf(actions: seq<Action>, op: string, ts: seq<Table>, offset: nat): Setting
    requires PipelineOk(actions, op, ts)
  {
    PlacesRewritable(actions, op, ts);
    var places := PlacesOf(actions, op, ts);
    Setting(actions, op, ts, offset, NewActions(actions, op), Starts(actions, op), places,
      GroupsUpTo(ts, places, offset, |ts|), SplitPipelineTo(actions, op, ts, offset))
  }

  lemma SettingOk(actions: seq<Action>, op: string, ts: seq<Table>, offset: nat)
    requires PipelineOk(actions, op, ts) && PipelineUses(actions, op, ts)
    ensures SettingOf(actions, op, ts, offset).Ok()
  {
    PlacesRewritable(actions, op, ts);
    ViewOf(actions, op);
    GroupsUpToAre(ts, PlacesOf(actions, op, ts), offset, |ts|);
    var s := SettingOf(actions, op, ts, offset);
    forall i | 0 <= i < |ts| ensures s.InOrder(i) { }
  }

  lemma RewriteAt(t: Table, p: Place, offset: nat, j: nat)
    requires (p.extra > 0 ==> Extensible(Moved(t, p, offset))) && j <= p.extra
    ensures var r := Rewrite(t, p, offset)[j];
      && r.name == t.name + Ending(j) && r.byDefault == p.first + j && r.id == t.id + offset + j
      && r.next == (if j < p.extra then Some(t.name + Ending(j + 1)) else t.next)
      && (p.extra == 0 ==> r.actions == t.actions && r.nextTables == t.nextTables && r.actionIds == p.ids)
      && (p.extra > 0 ==> r.actionIds == [r.byDefault] && r.actions == if j == 0 then t.actions else [p.lbl])
      && (j < p.extra ==> r.nextTables != [])
  {
    EndingZero(t.name);
  }

  /** The tables of a chain. */
  lemma ChainAt(s: Setting, i: nat, j: nat)
    requires s.Ok() && i < |s.ts| && j < |s.groups[i]|
    ensures s.InOrder(i) && s.TableAt(i, j, s.groups[i][j])
    ensures |s.groups[i]| == |Parts(s.actions[s.ts[i].byDefault].prims, s.op)|
  {
    assert s.InOrder(i);
    PlaceIs(s.actions, s.op, s.starts, s.ts[i]);
    assert GroupIs(s.ts, s.places, s.groups, s.offset, i);
    RewriteAt(s.ts[i], s.places[i], s.offset + ExtraSum(s.places, i), j);
  }

  /** Every new table is in the chain of an old one. */
  lemma TableFrom(s: Setting, k: nat) returns (i: nat, j: nat)
    requires s.Ok() && k < |s.ns|
    ensures i < |s.ts| && j < |s.groups[i]| && s.ns[k] == s.groups[i][j] && s.TableAt(i, j, s.ns[k]) && k == |Flat(s.groups, i)| + j
  {
    i, j := FlatFrom(s.groups, |s.ts|, k);
    ChainAt(s, i, j);
  }

  // ---------- Names ----------

  /** No table has this name or leads to it. */
  predicate Free(ts: seq<Table>, name: string) {
    forall i :: 0 <= i < |ts| ==> ts[i].name != name && ts[i].next != Some(name)
  }

  /** The names that a chain needs are free. */
  predicate NamesFree(ts: seq<Table>, t: Table) { Free(ts, t.name + Ending(1)) && Free(ts, t.name + Ending(2)) }

  predicate Avoids(at: Option<string>, t: Table) { at != Some(t.name + Ending(1)) && at != Some(t.name + Ending(2)) }

  /** Names are distinct, and every table that will become a chain has its new names free. */
  predicate NamesOk(actions: seq<Action>, op: string, ts: seq<Table>, at: Option<string>) {
    && DistinctTables(ts)
    && forall i | 0 <= i < |ts| && ts[i].byDefault < |actions| && IsSplit(actions[ts[i].byDefault], op) ::
         NamesFree(ts, ts[i]) && Avoids(at, ts[i])
  }

  /** An old name, or a name that a split table gave to its chain. */
  lemma NewName(s: Setting, i: nat, j: nat, t: Table)
    requires s.Ok() && s.TableAt(i, j, t)
    ensures j <= 2 && (j > 0 ==> IsSplit(s.actions[s.ts[i].byDefault], s.op)) && (j == 0 ==> t.name == s.ts[i].name)
  {
    EndingZero(s.ts[i].name);
  }

  lemma NamesApart(s: Setting, at: Option<string>, i: nat, j: nat, t: Table, i2: nat, j2: nat, t2: Table)
    requires s.Ok() && NamesOk(s.actions, s.op, s.ts, at) && s.TableAt(i, j, t) && s.TableAt(i2, j2, t2) && t.name == t2.name
    ensures i == i2 && j == j2
  {
    NewName(s, i, j, t);
    NewName(s, i2, j2, t2);
    assert j > 0 ==> NamesFree(s.ts, s.ts[i]);
    assert j2 > 0 ==> NamesFree(s.ts, s.ts[i2]);
    if j > 0 && j2 > 0 { EndingApart(s.ts[i].name, s.ts[i2].name, j, j2); }
  }

  lemma NewDistinct(s: Setting, at: Option<string>)
    requires s.Ok() && NamesOk(s.actions, s.op, s.ts, at)
    ensures DistinctTables(s.ns)
  {
    forall k, l | 0 <= k < l < |s.ns| ensures s.ns[k].name != s.ns[l].name {
      var i, j := TableFrom(s, k);
      var i2, j2 := TableFrom(s, l);
      if s.ns[k].name == s.ns[l].name { NamesApart(s, at, i, j, s.ns[k], i2, j2, s.ns[l]); }
    }
  }

  /** A name that no old table has is no new table's either, if the chains avoid it. */
  lemma StillOutside(s: Setting, at: Option<string>, to: Option<string>)
    requires s.Ok() && NamesOk(s.actions, s.op, s.ts, at)
    requires to == at || exists i :: 0 <= i < |s.ts| && s.ts[i].next == to
    requires to.Some? && Find(s.ts, to.value).None?
    ensures Find(s.ns, to.value).None?
  {
    FindNone(s.ts, to.value);
    FindNone(s.ns, to.value);
    forall k | 0 <= k < |s.ns| ensures s.ns[k].name != to.value {
      var i, j := TableFrom(s, k);
      NewName(s, i, j, s.ns[k]);
      if j > 0 { assert NamesFree(s.ts, s.ts[i]) && Avoids(at, s.ts[i]); }
    }
  }

  // ---------- The same run ----------

  lemma GroupRunsAt(s: Setting, i: nat, parts: seq<seq<Prim>>, j: nat)
    requires s.Ok() && DistinctTables(s.ns) && s.InOrder(i) && j < |parts|
    requires parts == Parts(s.actions[s.ts[i].byDefault].prims, s.op) && |s.groups[i]| == |parts|
    ensures RunsAt(s.news, s.ns, s.groups[i], parts, s.ts[i].next, j)
  {
    ChainAt(s, i, j);
    FlatAt(s.groups, |s.ts|, i, j);
    FindAt(s.ns, |Flat(s.groups, i)| + j);
    assert PartAt(s.actions, s.op, s.news, s.starts, s.ts[i].byDefault, j);
    if j + 1 < |parts| { ChainAt(s, i, j + 1); }
  }

  lemma GroupRuns(s: Setting, i: nat)
    requires s.Ok() && DistinctTables(s.ns) && s.InOrder(i)
    ensures s.groups[i] != [] && s.groups[i][0].name == s.ts[i].name
    ensures Runs(s.news, s.ns, s.groups[i], Parts(s.actions[s.ts[i].byDefault].prims, s.op), s.ts[i].next)
  {
    var parts := Parts(s.actions[s.ts[i].byDefault].prims, s.op);
    assert GroupIs(s.ts, s.places, s.groups, s.offset, i);
    ChainAt(s, i, 0);
    EndingZero(s.ts[i].name);
    forall j | 0 <= j < |parts| ensures RunsAt(s.news, s.ns, s.groups[i], parts, s.ts[i].next, j) {
      GroupRunsAt(s, i, parts, j);
    }
  }

  /** One table of the old pipeline is its whole chain in the new one. */
  lemma TableRuns(s: Setting, i: nat)
    requires s.Ok() && DistinctTables(s.ns) && s.InOrder(i) && CountOp(s.actions[s.ts[i].byDefault].prims, s.op) <= 1
    ensures |s.groups[i]| > 0
    ensures Run(s.news, s.ns, Some(s.ts[i].name), |s.groups[i]|) == (s.actions[s.ts[i].byDefault].prims, s.ts[i].next)
  {
    var ps := s.actions[s.ts[i].byDefault].prims;
    GroupRuns(s, i);
    ChainRuns(s.news, s.ns, s.groups[i], Parts(ps, s.op), s.ts[i].next, 0);
    PartsSame(ps, s.op);
    assert Parts(ps, s.op)[0..] == Parts(ps, s.op);
  }

  /** Names that lead out of the pipeline are not the names of new tables. */
  predicate Outside(ts: seq<Table>, ns: seq<Table>, at: Option<string>) {
    at.Some? ==> Find(ts, at.value).Some? || Find(ns, at.value).None?
  }

  /** Each table of the one pipeline is a number of steps of the other. */
  ghost predicate Simulates(actions: seq<Action>, ts: seq<Table>, news: seq<Action>, ns: seq<Table>, steps: seq<nat>) {
    && |steps| == |ts|
    && forall i :: 0 <= i < |ts| ==> SimulatesAt(actions, ts, news, ns, steps, i)
  }

  ghost predicate SimulatesAt(actions: seq<Action>, ts: seq<Table>, news: seq<Action>, ns: seq<Table>, steps: seq<nat>, i: int) {
    && 0 <= i < |ts| == |steps|
    && ts[i].byDefault < |actions|
    && steps[i] >= 1
    && Run(news, ns, Some(ts[i].name), steps[i]) == (actions[ts[i].byDefault].prims, ts[i].next)
    && Outside(ts, ns, ts[i].next)
  }

  lemma {:induction false} SimulatedRun(actions: seq<Action>, ts: seq<Table>, news: seq<Action>, ns: seq<Table>, steps: seq<nat>, at: Option<string>, n: nat)
    returns (m: nat)
    requires Simulates(actions, ts, news, ns, steps) && Outside(ts, ns, at)
    ensures m >= n && Run(news, ns, at, m) == Run(actions, ts, at, n)
    decreases n
  {
    if n == 0 || at.None? || Find(ts, at.value).None? { return n; }
    var i := FindSome(ts, at.value);
    assert SimulatesAt(actions, ts, news, ns, steps, i);
    var rest := SimulatedRun(actions, ts, news, ns, steps, ts[i].next, n - 1);
    RunCompose(news, ns, at, steps[i], rest);
    m := steps[i] + rest;
  }

  lemma SplitSimulates(s: Setting, at: Option<string>) returns (steps: seq<nat>)
    requires s.Ok() && NamesOk(s.actions, s.op, s.ts, at) && AtMostOnce(s.actions, s.op)
    ensures Simulates(s.actions, s.ts, s.news, s.ns, steps) && Outside(s.ts, s.ns, at)
  {
    NewDistinct(s, at);
    steps := seq<nat>(|s.ts|, i requires 0 <= i < |s.ts| => |s.groups[i]|);
    forall i | 0 <= i < |s.ts| ensures SimulatesAt(s.actions, s.ts, s.news, s.ns, steps, i) {
      assert s.InOrder(i);
      TableRuns(s, i);
      if s.ts[i].next.Some? && Find(s.ts, s.ts[i].next.value).None? { StillOutside(s, at, s.ts[i].next); }
    }
    if at.Some? && Find(s.ts, at.value).None? { StillOutside(s, at, at); }
  }

  /** What one split needs, all of it about the program before: ids, tables, names, and the extern at most once. */
  predicate Splittable(actions: seq<Action>, op: string, ts: seq<Table>, at: Option<string>) {
    && PipelineOk(actions, op, ts)
    && PipelineUses(actions, op, ts)
    && NamesOk(actions, op, ts, at)
    && AtMostOnce(actions, op)
  }

  /**
   * One split keeps the meaning of the pipeline: for every number of tables run before, there is a number
   * run after that has executed the same primitives in the same order and has come to the same successor.
   */
  lemma SameRun(actions: seq<Action>, op: string, ts: seq<Table>, offset: nat, at: Option<string>, n: nat) returns (m: nat)
    requires Splittable(actions, op, ts, at)
    ensures m >= n && Run(NewActions(actions, op), SplitPipelineTo(actions, op, ts, offset), at, m) == Run(actions, ts, at, n)
  {
    SettingOk(actions, op, ts, offset);
    var s := SettingOf(actions, op, ts, offset);
    var steps := SplitSimulates(s, at);
    m := SimulatedRun(actions, ts, s.news, s.ns, steps, at, n);
  }

  /** Table ids that count positions through the program go on doing so. */
  lemma TableIdsCount(s: Setting, base: nat, k: nat)
    requires s.Ok() && k < |s.ns| && forall i :: 0 <= i < |s.ts| ==> s.ts[i].id == base + i
    ensures s.ns[k].id == base + s.offset + k
  {
    var i, j := TableFrom(s, k);
    forall l | 0 <= l < |s.groups| ensures |s.groups[l]| == s.places[l].extra + 1 {
      assert GroupIs(s.ts, s.places, s.groups, s.offset, l);
    }
    FlatLength(s.groups, s.places, i);
    assert GroupIs(s.ts, s.places, s.groups, s.offset, i);
  }

  // ---------- The dictionary of successors ----------

  predicate InDict(d: seq<(string, string)>, k: string) { exists i :: 0 <= i < |d| && d[i].0 == k }

  predicate DistinctKeys(d: seq<(string, string)>) { forall i, j :: 0 <= i < j < |d| ==> d[i].0 != d[j].0 }

  lemma {:induction false} PutIn(d: seq<(string, string)>, k: string, v: string)
    ensures InDict(Put(d, k, v), k)
    decreases |d|
  {
    if d == [] || d[0].0 == k {
      assert Put(d, k, v)[0].0 == k;
    } else {
      PutIn(d[1..], k, v);
      var i :| 0 <= i < |Put(d[1..], k, v)| && Put(d[1..], k, v)[i].0 == k;
      assert Put(d, k, v)[i + 1].0 == k;
    }
  }

  /** The entry of the last table: written under its label, after which the old key is deleted. */
  lemma LastEntry(d: seq<(string, string)>, lbl: string, v: string)
    requires d != [] && DistinctKeys(d)
    ensures InDict(Del(Put(d, lbl, v), d[0].0), lbl) <==> lbl != d[0].0
  {
    if lbl == d[0].0 {
      assert Del(Put(d, lbl, v), lbl) == d[1..];
      forall i | 0 <= i < |d[1..]| ensures d[1..][i].0 != lbl { assert d[1..][i] == d[i + 1]; }
    } else {
      PutIn(d[1..], lbl, v);
      assert Del(Put(d, lbl, v), d[0].0) == Put(d[1..], lbl, v);
    }
  }

  /**
   * The last table of a chain keeps an entry for its own label in its dictionary of successors if and only if
   * the extern does not come first in the action: otherwise the entry just written is deleted again.
   */
  lemma SuccessorKept(a: Action, op: string, u: Table, extra: nat)
    requires IsSplit(a, op) && Extensible(u) && 0 < extra && u.actions == [a.name]
    requires u.nextTables[0].0 == a.name && DistinctKeys(u.nextTables)
    ensures var last := ChainTable(u, extra, Label(a, op), extra);
      last.actions == [Label(a, op)] && (InDict(last.nextTables, last.actions[0]) <==> HasFront(a.prims, op))
  {
    LastEntry(u.nextTables, Label(a, op), u.nextTables[0].1);
    assert |a.name + "_2"| == |a.name| + 2;
  }

  // ---------- The whole rewriting ----------

  method SplitPipeline(ts: seq<Table>, start: nat, ids: map<nat, nat>, splits: map<string, nat>, labels: map<string, string>,
                       ghost actions: seq<Action>, ghost op: string)
    returns (ns: seq<Table>, offset: nat)
    requires DistinctNames(actions) && RememberedUpTo(actions, op, |actions|, ids, splits, labels) && PipelineOk(actions, op, ts)
    ensures ns == SplitPipelineTo(actions, op, ts, start)
    ensures offset == start + ExtraSum(PlacesOf(actions, op, ts), |ts|)
  {
    ghost var places := PlacesOf(actions, op, ts);
    PlacesRewritable(actions, op, ts);
    forall i | 0 <= i < |ts| ensures Placed(ts[i], places[i], ids, splits, labels) {
      TablePlaced(actions, op, ts[i], ids, splits, labels);
    }
    ns, offset := SplitTables(ts, start, ids, splits, labels, places);
  }

  predicate AllPipelinesOk(actions: seq<Action>, op: string, pipelines: seq<seq<Table>>) {
    forall p :: 0 <= p < |pipelines| ==> PipelineOk(actions, op, pipelines[p])
  }

  /** The number of tables added before pipeline p. */
  function OffsetOf(actions: seq<Action>, op: string, pipelines: seq<seq<Table>>, p: nat): nat
    requires AllPipelinesOk(actions, op, pipelines) && p <= |pipelines|
  {
    if p == 0 then 0
    else OffsetOf(actions, op, pipelines, p - 1) + ExtraSum(PlacesOf(actions, op, pipelines[p - 1]), |pipelines[p - 1]|)
  }

  /** Pipeline p after one split; the table ids count on from pipeline to pipeline. */
  ghost predicate SplitAt(actions: seq<Action>, op: string, pipelines: seq<seq<Table>>, done: seq<seq<Table>>, p: int) {
    && 0 <= p < |pipelines| && p < |done|
    && AllPipelinesOk(actions, op, pipelines)
    && done[p] == SplitPipelineTo(actions, op, pipelines[p], OffsetOf(actions, op, pipelines, p))
  }

  method SplitPipelines(pipelines: seq<seq<Table>>, ids: map<nat, nat>, splits: map<string, nat>, labels: map<string, string>,
                        ghost actions: seq<Action>, ghost op: string)
    returns (done: seq<seq<Table>>)
    requires DistinctNames(actions) && RememberedUpTo(actions, op, |actions|, ids, splits, labels)
    requires AllPipelinesOk(actions, op, pipelines)
    ensures |done| == |pipelines| && forall p :: 0 <= p < |pipelines| ==> SplitAt(actions, op, pipelines, done, p)
  {
    var offset: nat := 0;
    done := [];
    for n := 0 to |pipelines|
      invariant offset == OffsetOf(actions, op, pipelines, n)
      invariant |done| == n && forall p :: 0 <= p < n ==> SplitAt(actions, op, pipelines, done, p)
    {
      var ns;
      ns, offset := SplitPipeline(pipelines[n], offset, ids, splits, labels, actions, op);
      ghost var was := done;
      done := done + [ns];
      forall p | 0 <= p < n + 1 ensures SplitAt(actions, op, pipelines, done, p) {
        if p < n { assert SplitAt(actions, op, pipelines, was, p) && done[p] == was[p]; }
      }
    }
  }

  class Program {
    var actions: seq<Action>
    var pipelines: seq<seq<Table>>

    constructor (a: seq<Action>, p: seq<seq<Table>>)
      ensures actions == a && pipelines == p
    {
      actions, pipelines := a, p;
    }

    /** split_op: the actions and every pipeline. */
    method SplitOp(op: string)
      requires IdsArePositions(actions) && DistinctNames(actions) && AllPipelinesOk(actions, op, pipelines)
      modifies this
      ensures actions == NewActions(old(actions), op)
      ensures |pipelines| == |old(pipelines)|
      ensures forall p :: 0 <= p < |pipelines| ==> SplitAt(old(actions), op, old(pipelines), pipelines, p)
    {
      ghost var before := actions;
      var ids, splits, labels;
      actions, ids, splits, labels := SplitActions(actions, op);
      pipelines := SplitPipelines(pipelines, ids, splits, labels, before, op);
    }
  }
}
