/** What two splits do to an action that both of them cut: the exact condition, on a program of one table. */
module ExternLosses {
  import opened Common
  import opened ExternActions
  import opened ExternTables
  import opened ExternMeaning
  import opened ExternRuns

  // ---------- Runs that end, and runs that do not ----------

  /** A run that has come to its end has executed one sequence of primitives only. */
  lemma EndUnique(actions: seq<Action>, ts: seq<Table>, at: Option<string>, n: nat, m: nat)
    requires Run(actions, ts, at, n).1.None? && Run(actions, ts, at, m).1.None? && n <= m
    ensures Run(actions, ts, at, n) == Run(actions, ts, at, m)
  {
    RunCompose(actions, ts, at, n, m - n);
    var p := Run(actions, ts, at, n).0;
    assert p + [] == p;
  }

  /** Every table of the chain is found, and leads to one of the chain. */
  ghost predicate Circular(ts: seq<Table>, chain: seq<Table>) {
    forall j :: 0 <= j < |chain| ==> Back(ts, chain, j)
  }

  ghost predicate Back(ts: seq<Table>, chain: seq<Table>, j: int) {
    && 0 <= j < |chain|
    && Find(ts, chain[j].name) == Some(chain[j])
    && exists k :: 0 <= k < |chain| && chain[j].next == Some(chain[k].name)
  }

  lemma {:induction false} NeverEnds(actions: seq<Action>, ts: seq<Table>, chain: seq<Table>, j: nat, n: nat)
    requires Circular(ts, chain) && j < |chain|
    ensures Run(actions, ts, Some(chain[j].name), n).1.Some?
    decreases n
  {
    if n > 0 {
      assert Back(ts, chain, j);
      var k :| 0 <= k < |chain| && chain[j].next == Some(chain[k].name);
      NeverEnds(actions, ts, chain, k, n - 1);
    }
  }

  // ---------- Parts ----------

  /** A single primitive is never split. */
  lemma ShortWhole(ps: seq<Prim>, op: string)
    requires |ps| == 1
    ensures |Parts(ps, op)| == 1
  {
    assert ps[..0] == [] && CutAt([], op) == Cut([], None, []);
    assert CutAt(ps, op) == CutStep(CutAt(ps[..0], op), ps[0], op);
  }

  /** The extern of a split action is the second part, or the first if nothing comes before it. */
  lemma ExternPart(ps: seq<Prim>, op: string)
    requires |Parts(ps, op)| > 1
    ensures |Parts(ps, op)[if HasFront(ps, op) then 1 else 0]| == 1
  {
  }

  lemma {:induction false} JoinLength(xs: seq<seq<Prim>>, ys: seq<seq<Prim>>, p: nat)
    requires |xs| == |ys| && forall i :: 0 <= i < |xs| ==> |xs[i]| <= |ys[i]|
    ensures |Join(xs)| <= |Join(ys)|
    ensures p < |xs| && |xs[p]| < |ys[p]| ==> |Join(xs)| < |Join(ys)|
    decreases |xs|
  {
    if xs != [] {
      JoinLength(xs[1..], ys[1..], if p > 0 then p - 1 else |xs|);
      assert p > 0 && p < |xs| ==> xs[1..][p - 1] == xs[p] && ys[1..][p - 1] == ys[p];
    }
  }

  /** The first part is all there is if and only if there is no other. */
  lemma FirstShorter(ps: seq<Prim>, op: string)
    requires CountOp(ps, op) <= 1
    ensures |Parts(ps, op)[0]| <= |ps| && (|Parts(ps, op)| > 1 ==> |Parts(ps, op)[0]| < |ps|)
  {
    PartsSame(ps, op);
    PartsJoin(ps, op);
    if |Parts(ps, op)| == 1 { NotFound(ps, op); }
  }

  /** An extern that occurs once is in one part. */
  lemma {:induction false} OnePart(parts: seq<seq<Prim>>, p: nat, q: nat, op: string)
    requires p < q < |parts| && CountOp(Join(parts), op) <= 1
    ensures CountOp(parts[p], op) == 0 || CountOp(parts[q], op) == 0
    decreases |parts|
  {
    CountIn(parts[0], Join(parts[1..]), op);
    assert parts[1..][q - 1] == parts[q];
    if p > 0 {
      assert parts[1..][p - 1] == parts[p];
      OnePart(parts[1..], p - 1, q - 1, op);
    } else {
      CountJoin(parts[1..], q - 1, op);
    }
  }

  lemma NoneWhole(ps: seq<Prim>, op: string)
    requires CountOp(ps, op) == 0
    ensures Parts(ps, op) == [ps]
  {
    CutFound(ps, op);
  }

  // ---------- One action and one table, after the first split ----------

  /** A program of one action and one table that runs it and ends. */
  predicate OneTable(a: Action, t: Table) { a.id == 0 && OnlyAction([a], t, 0) && t.next.None? }

  /** Table j of the chain after the first split. */
  ghost predicate LinkIs(a: Action, op: string, t: Table, parts: nat, u: Table, j: nat) {
    && u.name == t.name + Ending(j)
    && u.byDefault == j && u.actionIds == [j]
    && u.actions == [if j == 0 then a.name else Label(a, op)]
    && u.next == (if j + 1 < parts then Some(t.name + Ending(j + 1)) else None)
    && (j == 0 ==> u.nextTables != [])
  }

  /** The program after the first split. */
  ghost predicate SplitOnce(a: Action, op: string, t: Table, news: seq<Action>, ns: seq<Table>) {
    && var parts := Parts(a.prims, op);
    && |news| == |parts| == |ns|
    && (forall p :: 0 <= p < |parts| ==> news[p] == Action(PartName(a, op, p), p, parts[p]))
    && (forall j :: 0 <= j < |parts| ==> LinkIs(a, op, t, |parts|, ns[j], j))
  }

  lemma OneOk(a: Action, op: string, t: Table)
    requires OneTable(a, t)
    ensures PipelineOk([a], op, [t]) && PipelineUses([a], op, [t])
  {
  }

  lemma OneActions(a: Action, op: string)
    ensures var news, parts := NewActions([a], op), Parts(a.prims, op);
      |news| == |parts| && forall p :: 0 <= p < |parts| ==> news[p] == Action(PartName(a, op, p), p, parts[p])
  {
    var g := Groups([a], op);
    GroupsAt([a], op, 0);
    assert Flat(g, 1) == Flat(g, 0) + g[0] && Flat(g, 0) == [];
    assert Flat(g, 1) == g[0] == NamedParts(a, op);
  }

  lemma OneChain(t: Table, p: Place)
    requires Rewritable([t], [p]) && (p.extra > 0 ==> Extensible(Moved(t, p, 0)))
    ensures NewTables([t], [p], 0) == Rewrite(t, p, 0)
  {
    NextGroup([t], [p], 0, 0, Rewrite(t, p, 0));
    assert Flat(GroupsUpTo([t], [p], 0, 0), 0) == [];
    assert [] + Rewrite(t, p, 0) == Rewrite(t, p, 0);
  }

  /** How the one table is rewritten. */
  predicate OnePlace(a: Action, op: string, p: Place) {
    && p.first == 0 && p.ids == [0] && p.extra == |Parts(a.prims, op)| - 1
    && (p.extra > 0 ==> p.lbl == Label(a, op))
  }

  lemma OneTables(a: Action, op: string, t: Table) returns (p: Place)
    requires OneTable(a, t)
    ensures PipelineOk([a], op, [t]) && OnePlace(a, op, p) && SplitPipelineTo([a], op, [t], 0) == Rewrite(t, p, 0)
  {
    OneOk(a, op, t);
    PlacesRewritable([a], op, [t]);
    p := PlacesOf([a], op, [t])[0];
    assert PlacesOf([a], op, [t]) == [p];
    PlaceIs([a], op, Starts([a], op), t);
    OneChain(t, p);
  }

  lemma LinkOf(a: Action, op: string, t: Table, p: Place, j: nat)
    requires OneTable(a, t) && OnePlace(a, op, p) && j <= p.extra
    ensures LinkIs(a, op, t, p.extra + 1, Rewrite(t, p, 0)[j], j)
  {
    RewriteAt(t, p, 0, j);
  }

  lemma FirstSplit(a: Action, op: string, t: Table)
    requires OneTable(a, t)
    ensures PipelineOk([a], op, [t]) && SplitOnce(a, op, t, NewActions([a], op), SplitPipelineTo([a], op, [t], 0))
  {
    OneActions(a, op);
    var p := OneTables(a, op, t);
    var ns := SplitPipelineTo([a], op, [t], 0);
    forall j | 0 <= j < |Parts(a.prims, op)| ensures LinkIs(a, op, t, |Parts(a.prims, op)|, ns[j], j) {
      LinkOf(a, op, t, p, j);
    }
  }

  // ---------- The tables that the second split can find ----------

  /** A part that the chain's labels name and that is split again is the first one, found by the first table only. */
  lemma FoundFirst(a: Action, op: string, t: Table, news: seq<Action>, ns: seq<Table>, other: string, j: nat, i: nat)
    requires SplitOnce(a, op, t, news, ns) && j < |ns| && Lists(news, other, ns[j], i)
    ensures j == 0 && i == 0
  {
    assert LinkIs(a, op, t, |news|, ns[j], j);
    assert |a.name + "_2"| == |a.name + "_3"| == |a.name| + 2;
    assert (a.name + "_2")[|a.name| + 1] != (a.name + "_3")[|a.name| + 1];
    if j > 0 {
      ExternPart(a.prims, op);
      ShortWhole(news[if HasFront(a.prims, op) then 1 else 0].prims, other);
    }
  }

  lemma SecondOk(a: Action, op: string, t: Table, news: seq<Action>, ns: seq<Table>, other: string)
    requires SplitOnce(a, op, t, news, ns)
    ensures PipelineOk(news, other, ns)
  {
    forall j | 0 <= j < |ns| ensures TableOk(news, other, ns[j]) {
      assert LinkIs(a, op, t, |news|, ns[j], j);
      forall i | 0 <= i < |news| && Lists(news, other, ns[j], i) ensures OnlyAction(news, ns[j], i) {
        FoundFirst(a, op, t, news, ns, other, j, i);
        assert news[0].name == a.name;
      }
    }
  }

  // ---------- A later part is split again: its second half is lost ----------

  lemma {:induction false} FlatSingles<T>(groups: seq<seq<T>>, n: nat)
    requires n <= |groups| && forall k :: 0 <= k < n ==> |groups[k]| == 1
    ensures |Flat(groups, n)| == n && forall k :: 0 <= k < n ==> Flat(groups, n)[k] == groups[k][0]
    decreases n
  {
    if n > 0 { FlatSingles(groups, n - 1); }
  }

  /** A table that is not found only moves. */
  lemma MovedAlone(ts: seq<Table>, places: seq<Place>, groups: seq<seq<Table>>, k: nat)
    requires GroupIs(ts, places, groups, 0, k) && places[k].extra == 0
    ensures |groups[k]| == 1 && groups[k][0].name == ts[k].name && groups[k][0].next == ts[k].next
    ensures groups[k][0].byDefault == places[k].first
  {
  }

  lemma NotListed(news: seq<Action>, other: string, t: Table)
    requires InRange(news, t) && forall i :: !Lists(news, other, t, i)
    ensures var p := PlaceWith(news, other, Starts(news, other), t);
      p.extra == 0 && p.first == Starts(news, other)[t.byDefault]
  {
    ListedIs(news, other, t);
  }

  /** Nothing is found, so every table keeps its place and runs the first piece of its part. */
  lemma NothingFound(news: seq<Action>, other: string, ns: seq<Table>, j: nat)
    requires PipelineOk(news, other, ns) && j < |ns|
    requires forall k, i :: 0 <= k < |ns| ==> !Lists(news, other, ns[k], i)
    ensures var after := SplitPipelineTo(news, other, ns, 0);
      |after| == |ns| && after[j].name == ns[j].name && after[j].next == ns[j].next
      && after[j].byDefault == Starts(news, other)[ns[j].byDefault]
  {
    PlacesRewritable(news, other, ns);
    var places := PlacesOf(news, other, ns);
    var groups := GroupsUpTo(ns, places, 0, |ns|);
    GroupsUpToAre(ns, places, 0, |ns|);
    forall k | 0 <= k < |ns| ensures |groups[k]| == 1 {
      NotListed(news, other, ns[k]);
      assert GroupIs(ns, places, groups, 0, k);
      MovedAlone(ns, places, groups, k);
    }
    FlatSingles(groups, |ns|);
    NotListed(news, other, ns[j]);
    assert GroupIs(ns, places, groups, 0, j);
    MovedAlone(ns, places, groups, j);
  }

  /** The first pieces of all parts. */
  function FirstPieces(parts: seq<seq<Prim>>, other: string): (r: seq<seq<Prim>>)
    ensures |r| == |parts| && forall j :: 0 <= j < |r| ==> r[j] == Parts(parts[j], other)[0]
  {
    seq(|parts|, j requires 0 <= j < |parts| => Parts(parts[j], other)[0])
  }

  /** Table j of a chain that runs the first pieces. */
  ghost predicate PieceAt(name: string, starts: seq<nat>, after: seq<Table>, j: int) {
    && 0 <= j < |after| == |starts|
    && after[j].name == name + Ending(j)
    && after[j].byDefault == starts[j]
    && after[j].next == if j + 1 < |after| then Some(name + Ending(j + 1)) else None
  }

  lemma PiecesRun(news: seq<Action>, other: string, last: seq<Action>, starts: seq<nat>, after: seq<Table>, name: string, pieces: seq<seq<Prim>>)
    requires View(news, other, last, starts) && 0 < |news| == |after| == |pieces| <= 3
    requires forall j :: 0 <= j < |after| ==> PieceAt(name, starts, after, j)
    requires forall j :: 0 <= j < |news| ==> pieces[j] == Parts(news[j].prims, other)[0]
    ensures Run(last, after, Some(name), |after|) == (Join(pieces), None)
  {
    forall j | 0 <= j < |after| ensures after[j].name == name + Ending(j) { assert PieceAt(name, starts, after, j); }
    ChainDistinct(name, after);
    forall j | 0 <= j < |after| ensures RunsAt(last, after, after, pieces, None, j) {
      FindAt(after, j);
      assert PieceAt(name, starts, after, j);
      assert PartAt(news, other, last, starts, j, 0);
    }
    EndingZero(name);
    ChainRuns(last, after, after, pieces, None, 0);
    assert pieces[0..] == pieces;
  }

  lemma PiecesLeft(a: Action, op: string, t: Table, news: seq<Action>, ns: seq<Table>, other: string)
    requires SplitOnce(a, op, t, news, ns) && PipelineOk(news, other, ns)
    requires forall k, i :: 0 <= k < |ns| ==> !Lists(news, other, ns[k], i)
    ensures var pieces := FirstPieces(Parts(a.prims, op), other);
      Run(NewActions(news, other), SplitPipelineTo(news, other, ns, 0), Some(t.name), |ns|) == (Join(pieces), None)
  {
    var after, starts := SplitPipelineTo(news, other, ns, 0), Starts(news, other);
    NothingFound(news, other, ns, 0);
    forall j | 0 <= j < |after| ensures PieceAt(t.name, starts, after, j) {
      NothingFound(news, other, ns, j);
      assert LinkIs(a, op, t, |ns|, ns[j], j);
    }
    ViewOf(news, other);
    PiecesRun(news, other, NewActions(news, other), starts, after, t.name, FirstPieces(Parts(a.prims, op), other));
  }

  lemma ChainDistinct(name: string, ts: seq<Table>)
    requires |ts| <= 3 && forall j :: 0 <= j < |ts| ==> ts[j].name == name + Ending(j)
    ensures DistinctTables(ts)
  {
    forall i, j | 0 <= i < j < |ts| ensures ts[i].name != ts[j].name {
      if i > 0 && ts[i].name == ts[j].name { EndingApart(name, name, i, j); }
      assert i == 0 ==> |ts[i].name| == |name|;
      assert |ts[j].name| == |name| + 2;
    }
  }

  /** No number of steps runs all the primitives to the end. */
  lemma SecondHalfLost(a: Action, op: string, t: Table, news: seq<Action>, ns: seq<Table>, other: string, p: nat, m: nat)
    requires SplitOnce(a, op, t, news, ns) && PipelineOk(news, other, ns)
    requires CountOp(a.prims, op) <= 1 && CountOp(a.prims, other) <= 1
    requires 0 < p < |news| && IsSplit(news[p], other)
    ensures Run(NewActions(news, other), SplitPipelineTo(news, other, ns, 0), Some(t.name), m) != (a.prims, None)
  {
    var parts := Parts(a.prims, op);
    PartsSame(a.prims, op);
    OnePart(parts, 0, p, other);
    if CountOp(parts[p], other) == 0 { NoneWhole(parts[p], other); }
    NoneWhole(parts[0], other);
    forall k, i | 0 <= k < |ns| ensures !Lists(news, other, ns[k], i) {
      if Lists(news, other, ns[k], i) { FoundFirst(a, op, t, news, ns, other, k, i); }
    }
    PiecesLeft(a, op, t, news, ns, other);
    var pieces := FirstPieces(parts, other);
    forall i | 0 <= i < |parts| ensures |pieces[i]| <= |parts[i]| && (IsSplit(news[i], other) ==> |pieces[i]| < |parts[i]|) {
      CountJoin(parts, i, other);
      FirstShorter(parts[i], other);
    }
    JoinLength(pieces, parts, p);
    var last, after := NewActions(news, other), SplitPipelineTo(news, other, ns, 0);
    if Run(last, after, Some(t.name), m) == (a.prims, None) {
      if m <= |ns| { EndUnique(last, after, Some(t.name), m, |ns|); } else { EndUnique(last, after, Some(t.name), |ns|, m); }
    }
  }

  // ---------- The first part is split again: the new chain leads back into itself ----------

  lemma {:induction false} FindPrefix(xs: seq<Table>, ys: seq<Table>, j: nat)
    requires DistinctTables(xs) && j < |xs|
    ensures Find(xs + ys, xs[j].name) == Some(xs[j])
    decreases |xs|
  {
    if j > 0 {
      FindPrefix(xs[1..], ys, j - 1);
      assert (xs + ys)[1..] == xs[1..] + ys;
    }
  }

  lemma {:induction false} FlatHead<T>(groups: seq<seq<T>>, n: nat) returns (tail: seq<T>)
    requires 0 < n <= |groups|
    ensures Flat(groups, n) == groups[0] + tail
    decreases n
  {
    if n == 1 {
      assert Flat(groups, 1) == Flat(groups, 0) + groups[0];
      tail := [];
    } else {
      tail := FlatHead(groups, n - 1);
      Assoc(groups[0], tail, groups[n - 1]);
      tail := tail + groups[n - 1];
    }
  }

  /** Table j of a chain whose last table leads to its second. */
  ghost predicate LoopAt(name: string, chain: seq<Table>, j: int) {
    && 0 <= j < |chain|
    && chain[j].name == name + Ending(j)
    && chain[j].next == Some(name + Ending(if j + 1 < |chain| then j + 1 else 1))
  }

  lemma LoopCircular(name: string, chain: seq<Table>, tail: seq<Table>)
    requires 2 <= |chain| <= 3 && forall j :: 0 <= j < |chain| ==> LoopAt(name, chain, j)
    ensures Circular(chain + tail, chain)
  {
    forall j | 0 <= j < |chain| ensures chain[j].name == name + Ending(j) { assert LoopAt(name, chain, j); }
    ChainDistinct(name, chain);
    forall j | 0 <= j < |chain| ensures Back(chain + tail, chain, j) {
      FindPrefix(chain, tail, j);
      assert LoopAt(name, chain, j);
      var k := if j + 1 < |chain| then j + 1 else 1;
      assert chain[j].next == Some(chain[k].name);
    }
  }

  lemma NewChain(a: Action, op: string, t: Table, news: seq<Action>, ns: seq<Table>, other: string) returns (chain: seq<Table>, tail: seq<Table>)
    requires SplitOnce(a, op, t, news, ns) && PipelineOk(news, other, ns) && |ns| > 1 && IsSplit(news[0], other)
    ensures SplitPipelineTo(news, other, ns, 0) == chain + tail
    ensures 2 <= |chain| <= 3 && forall j :: 0 <= j < |chain| ==> LoopAt(t.name, chain, j)
  {
    PlacesRewritable(news, other, ns);
    var places := PlacesOf(news, other, ns);
    GroupsUpToAre(ns, places, 0, |ns|);
    var groups := GroupsUpTo(ns, places, 0, |ns|);
    assert GroupIs(ns, places, groups, 0, 0);
    assert LinkIs(a, op, t, |ns|, ns[0], 0);
    EndingZero(t.name);
    PlaceIs(news, other, Starts(news, other), ns[0]);
    chain := groups[0];
    tail := FlatHead(groups, |ns|);
    forall j | 0 <= j < |chain| ensures LoopAt(t.name, chain, j) { RewriteAt(ns[0], places[0], 0, j); }
  }

  lemma FrontLoops(a: Action, op: string, t: Table, news: seq<Action>, ns: seq<Table>, other: string, m: nat)
    requires SplitOnce(a, op, t, news, ns) && PipelineOk(news, other, ns) && |ns| > 1 && IsSplit(news[0], other)
    ensures Run(NewActions(news, other), SplitPipelineTo(news, other, ns, 0), Some(t.name), m).1.Some?
  {
    var chain, tail := NewChain(a, op, t, news, ns, other);
    LoopCircular(t.name, chain, tail);
    assert LoopAt(t.name, chain, 0);
    EndingZero(t.name);
    NeverEnds(NewActions(news, other), chain + tail, chain, 0, m);
  }

  // ---------- The exact condition ----------

  lemma OneActionsReady(a: Action, op: string, other: string)
    requires a.id == 0 && CountOp(a.prims, op) <= 1 && CountOp(a.prims, other) <= 1 && Clean(a.prims, [op, other])
    ensures ActionsReady([a], [op, other])
  {
    assert |a.name + Ending(1)| == |a.name + Ending(2)| == |a.name| + 2;
    assert FreshName([a], a.name);
  }

  lemma OnePipelineReady(a: Action, t: Table, op: string, other: string)
    requires OneTable(a, t)
    ensures PipelineReady([a], [t], [op, other], Some(t.name))
  {
    OneOk(a, op, t);
    OneOk(a, other, t);
    assert |t.name + Ending(1)| == |t.name + Ending(2)| == |t.name| + 2;
    assert NamesFree([t], t) && Avoids(Some(t.name), t);
  }

  /** The run is complete: all the primitives of the action, and then the end. */
  ghost predicate Completes(actions: seq<Action>, ts: seq<Table>, a: Action, t: Table) {
    exists m: nat :: Run(actions, ts, Some(t.name), m) == (a.prims, None)
  }

  lemma OneRun(a: Action, t: Table)
    requires OneTable(a, t)
    ensures Run([a], [t], Some(t.name), 1) == (a.prims, None)
  {
    assert Find([t], t.name) == Some(t);
    assert Run([a], [t], None, 0) == ([], None);
    assert a.prims + [] == a.prims;
  }

  lemma CleanCompletes(a: Action, t: Table, op: string, other: string, news: seq<Action>, ns: seq<Table>)
    requires OneTable(a, t) && CountOp(a.prims, op) <= 1 && CountOp(a.prims, other) <= 1 && Clean(a.prims, [op, other])
    requires PipelineOk([a], op, [t]) && news == NewActions([a], op) && ns == SplitPipelineTo([a], op, [t], 0)
    requires PipelineOk(news, other, ns)
    ensures Completes(NewActions(news, other), SplitPipelineTo(news, other, ns, 0), a, t)
  {
    OneActionsReady(a, op, other);
    OnePipelineReady(a, t, op, other);
    assert [op, other] == [op] + [other] && [other] == [other] + [];
    SplitKept([a], [t], op, [other], 0, Some(t.name));
    SplitKept(news, ns, other, [], 0, Some(t.name));
    var last, after := NewActions(news, other), SplitPipelineTo(news, other, ns, 0);
    RunsLikeTrans([a], [t], news, ns, last, after, Some(t.name));
    assert Reached([a], [t], last, after, Some(t.name), 1);
    OneRun(a, t);
  }

  /** An action that is not clean has a part that is split again. */
  lemma SplitAgain(ps: seq<Prim>, op: string, other: string) returns (p: nat)
    requires !Clean(ps, [op, other])
    ensures |Parts(ps, op)| > 1 && p < |Parts(ps, op)| && |Parts(Parts(ps, op)[p], other)| > 1
  {
    assert [op, other][1..] == [other];
    if |Parts(ps, op)| == 1 {
      assert [other][1..] == [];
      assert Clean(ps, [other]);
    }
    p :| 0 <= p < |Parts(ps, op)| && !Unsplit(Parts(ps, op)[p], [other]);
  }

  lemma UncleanFails(a: Action, t: Table, op: string, other: string, news: seq<Action>, ns: seq<Table>)
    requires SplitOnce(a, op, t, news, ns) && PipelineOk(news, other, ns)
    requires CountOp(a.prims, op) <= 1 && CountOp(a.prims, other) <= 1 && !Clean(a.prims, [op, other])
    ensures !Completes(NewActions(news, other), SplitPipelineTo(news, other, ns, 0), a, t)
  {
    var p := SplitAgain(a.prims, op, other);
    forall m: nat ensures Run(NewActions(news, other), SplitPipelineTo(news, other, ns, 0), Some(t.name), m) != (a.prims, None) {
      if p > 0 {
        SecondHalfLost(a, op, t, news, ns, other, p, m);
      } else {
        FrontLoops(a, op, t, news, ns, other, m);
      }
    }
  }

  /**
   * Two splits of a program of one table go through, and its run stays complete if and only if no part that the
   * first split made is split by the second.
   */
  lemma TwoSplits(a: Action, t: Table, op: string, other: string)
    requires OneTable(a, t) && CountOp(a.prims, op) <= 1 && CountOp(a.prims, other) <= 1
    ensures PipelineOk([a], op, [t])
    ensures var news, ns := NewActions([a], op), SplitPipelineTo([a], op, [t], 0);
      && PipelineOk(news, other, ns)
      && (Completes(NewActions(news, other), SplitPipelineTo(news, other, ns, 0), a, t) <==> Clean(a.prims, [op, other]))
  {
    FirstSplit(a, op, t);
    var news, ns := NewActions([a], op), SplitPipelineTo([a], op, [t], 0);
    SecondOk(a, op, t, news, ns, other);
    if Clean(a.prims, [op, other]) {
      CleanCompletes(a, t, op, other, news, ns);
    } else {
      UncleanFails(a, t, op, other, news, ns);
    }
  }

  lemma CutSnoc(ps: seq<Prim>, p: Prim, op: string)
    ensures CutAt(ps + [p], op) == CutStep(CutAt(ps, op), p, op)
  {
    assert (ps + [p])[..|ps|] == ps;
  }

  lemma CutFour(w: Prim, x: Prim, y: Prim, z: Prim, op: string)
    ensures CutAt([w], op) == CutStep(Cut([], None, []), w, op)
    ensures CutAt([w, x], op) == CutStep(CutAt([w], op), x, op)
    ensures CutAt([w, x, y], op) == CutStep(CutAt([w, x], op), y, op)
    ensures CutAt([w, x, y, z], op) == CutStep(CutAt([w, x, y], op), z, op)
  {
    CutSnoc([], w, op);
    assert [] + [w] == [w] && [w] + [x] == [w, x] && [w, x] + [y] == [w, x, y] && [w, x, y] + [z] == [w, x, y, z];
    CutSnoc([w], x, op);
    CutSnoc([w, x], y, op);
    CutSnoc([w, x, y], z, op);
  }

  /** Two externs, each with a primitive before it. */
  predicate TwoExterns(x: Prim, e: Prim, y: Prim, f: Prim) {
    e.op != f.op && x.op != e.op && x.op != f.op && y.op != e.op && y.op != f.op
  }

  lemma CutTwo(x: Prim, e: Prim, y: Prim, f: Prim)
    requires TwoExterns(x, e, y, f)
    ensures CutAt([x, e, y, f], e.op) == Cut([x], Some(e), [y, f])
    ensures CutAt([x, e, y], e.op) == Cut([x], Some(e), [y])
    ensures CutAt([x, e, y, f], f.op) == Cut([x, e, y], Some(f), [])
  {
    CutFour(x, e, y, f, e.op);
    assert [] + [x] == [x] && [] + [y] == [y] && [y] + [f] == [y, f] && [x] + [e] == [x, e] && [x, e] + [y] == [x, e, y];
    assert CutAt([x], e.op) == Cut([x], None, []);
    assert CutAt([x, e], e.op) == Cut([x], Some(e), []);
    CutFour(x, e, y, f, f.op);
    assert CutAt([x], f.op) == Cut([x], None, []);
    assert CutAt([x, e], f.op) == Cut([x, e], None, []);
  }

  lemma PartsTwo(x: Prim, e: Prim, y: Prim, f: Prim)
    requires TwoExterns(x, e, y, f)
    ensures Parts([x, e, y, f], e.op) == [[x], [e], [y, f]] && |Parts([x, e, y], e.op)| == 3
    ensures Parts([x, e, y, f], f.op) == [[x, e, y], [f]]
  {
    CutTwo(x, e, y, f);
    assert [[x]] + [[e]] + [[y, f]] == [[x], [e], [y, f]];
    assert [[x, e, y]] + [[f]] == [[x, e, y], [f]];
  }

  lemma ExternsLoop(a: Action, t: Table, x: Prim, e: Prim, y: Prim, f: Prim, m: nat)
    requires TwoExterns(x, e, y, f)
    requires OneTable(a, t) && a.prims == [x, e, y, f]
    ensures PipelineOk([a], f.op, [t])
    ensures var news, ns := NewActions([a], f.op), SplitPipelineTo([a], f.op, [t], 0);
      && PipelineOk(news, e.op, ns)
      && Run(NewActions(news, e.op), SplitPipelineTo(news, e.op, ns, 0), Some(t.name), m).1.Some?
  {
    FirstSplit(a, f.op, t);
    var news, ns := NewActions([a], f.op), SplitPipelineTo([a], f.op, [t], 0);
    SecondOk(a, f.op, t, news, ns, e.op);
    PartsTwo(x, e, y, f);
    assert news[0].prims == [x, e, y];
    FrontLoops(a, f.op, t, news, ns, e.op, m);
  }

  lemma ThreePieces(x: Prim, e: Prim, y: Prim, f: Prim)
    requires TwoExterns(x, e, y, f)
    ensures |Parts([x], f.op)| == 1 && Join(FirstPieces([[x], [e], [y, f]], f.op)) == [x, e, y]
  {
    CutFour(x, x, x, x, f.op);
    CutFour(e, e, e, e, f.op);
    CutFour(y, f, y, f, f.op);
    assert [] + [x] == [x] && [] + [e] == [e] && [] + [y] == [y];
    assert CutAt([x], f.op) == Cut([x], None, []) && CutAt([e], f.op) == Cut([e], None, []);
    assert CutAt([y, f], f.op) == Cut([y], Some(f), []);
    assert Parts([x], f.op)[0] == [x] && Parts([e], f.op)[0] == [e] && Parts([y, f], f.op)[0] == [y];
    assert FirstPieces([[x], [e], [y, f]], f.op) == [[x], [e], [y]];
    JoinFew([x], [e], [y]);
  }

  lemma ExternsLost(a: Action, t: Table, x: Prim, e: Prim, y: Prim, f: Prim)
    requires TwoExterns(x, e, y, f)
    requires OneTable(a, t) && a.prims == [x, e, y, f]
    ensures PipelineOk([a], e.op, [t])
    ensures var news, ns := NewActions([a], e.op), SplitPipelineTo([a], e.op, [t], 0);
      && PipelineOk(news, f.op, ns)
      && Run(NewActions(news, f.op), SplitPipelineTo(news, f.op, ns, 0), Some(t.name), 3) == ([x, e, y], None)
  {
    FirstSplit(a, e.op, t);
    var news, ns := NewActions([a], e.op), SplitPipelineTo([a], e.op, [t], 0);
    SecondOk(a, e.op, t, news, ns, f.op);
    var parts := Parts(a.prims, e.op);
    PartsTwo(x, e, y, f);
    ThreePieces(x, e, y, f);
    forall k, i | 0 <= k < |ns| ensures !Lists(news, f.op, ns[k], i) {
      if Lists(news, f.op, ns[k], i) { FoundFirst(a, e.op, t, news, ns, f.op, k, i); }
    }
    PiecesLeft(a, e.op, t, news, ns, f.op);
  }

  /**
   * So an action that runs two externs, each with primitives before it, is not kept: split for the first one first,
   * the last extern is never run; split for the last one first, the run never ends.
   */
  lemma TwoExternsLost(a: Action, t: Table, x: Prim, e: Prim, y: Prim, f: Prim, m: nat)
    requires TwoExterns(x, e, y, f)
    requires OneTable(a, t) && a.prims == [x, e, y, f]
    ensures PipelineOk([a], e.op, [t]) && PipelineOk([a], f.op, [t])
    ensures var news, ns := NewActions([a], e.op), SplitPipelineTo([a], e.op, [t], 0);
      && PipelineOk(news, f.op, ns)
      && Run(NewActions(news, f.op), SplitPipelineTo(news, f.op, ns, 0), Some(t.name), 3) == ([x, e, y], None)
    ensures var news, ns := NewActions([a], f.op), SplitPipelineTo([a], f.op, [t], 0);
      && PipelineOk(news, e.op, ns)
      && Run(NewActions(news, e.op), SplitPipelineTo(news, e.op, ns, 0), Some(t.name), m).1.Some?
  {
    ExternsLost(a, t, x, e, y, f);
    ExternsLoop(a, t, x, e, y, f, m);
  }
}
