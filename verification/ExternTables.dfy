/** Rewriting the tables of a bmv2 program to match its split actions. */
module ExternTables {
  import opened Common
  import opened ExternActions

  datatype Table = Table(
    name: string, id: nat, actionIds: seq<nat>, actions: seq<string>, byDefault: nat,
    next: Option<string>, nextTables: seq<(string, string)>)

  // ---------- Splitting the actions ----------

  /** The parts of one action, as the script builds them. */
  method SplitOne(a: Action, op: string, id: nat) returns (out: seq<Action>, lbl: string)
    ensures |out| == |NamedParts(a, op)| && lbl == Label(a, op)
    ensures forall p :: 0 <= p < |out| ==> out[p] == Action(NamedParts(a, op)[p].name, id + p, NamedParts(a, op)[p].prims)
  {
    var c := CutPrimitives(a.prims, op);
    CutComesFrom(a.prims, op);
    var hasFront := c.before != [] || c.extern_.None?;
    out, lbl := [], a.name;
    if hasFront { out := out + [Action(a.name, id, c.before)]; }
    if c.extern_.None? { return; }
    out := out + [if hasFront then Action(a.name + "_2", id + 1, [c.extern_.value]) else Action(a.name, id, [c.extern_.value])];
    if hasFront { lbl := a.name + "_2"; }
    if c.after == [] { return; }
    out := out + [Action(a.name + "_3", if hasFront then id + 2 else id + 1, c.after)];
  }

  /** The label that the later tables of a chain carry; it is the second part's, or the action's own. */
  function Label(a: Action, op: string): string {
    if |Parts(a.prims, op)| > 1 && HasFront(a.prims, op) then a.name + "_2" else a.name
  }

  predicate DistinctNames(actions: seq<Action>) {
    forall i, j :: 0 <= i < j < |actions| ==> actions[i].name != actions[j].name
  }

  predicate IsSplit(a: Action, op: string) { |Parts(a.prims, op)| > 1 }

  /** What the script remembers of an action: its new id, how many parts follow the first, and the label. */
  predicate Remembered(actions: seq<Action>, op: string, i: int, ids: map<nat, nat>, splits: map<string, nat>, labels: map<string, string>) {
    && 0 <= i < |actions|
    && i in ids && ids[i] == Start(actions, op, i)
    && actions[i].name in labels && labels[actions[i].name] == Label(actions[i], op)
    && (IsSplit(actions[i], op) <==> actions[i].name in splits)
    && (IsSplit(actions[i], op) ==> splits[actions[i].name] == |Parts(actions[i].prims, op)| - 1)
  }

  lemma AppendNumbered(x: seq<Part>, parts: seq<Part>, out: seq<Action>)
    requires |out| == |parts| && forall p :: 0 <= p < |out| ==> out[p] == Action(parts[p].name, |x| + p, parts[p].prims)
    ensures Numbered(x) + out == Numbered(x + parts)
  {
  }

  /** Only actions that are split count as split. */
  ghost predicate SplitNames(actions: seq<Action>, op: string, n: nat, splits: map<string, nat>) {
    n <= |actions| && forall name :: name in splits ==> exists i :: 0 <= i < n && actions[i].name == name && IsSplit(actions[i], op)
  }

  /** All of the first n actions are remembered, and nothing else is called split. */
  ghost predicate RememberedUpTo(actions: seq<Action>, op: string, n: nat, ids: map<nat, nat>, splits: map<string, nat>, labels: map<string, string>) {
    && n <= |actions|
    && (forall i :: 0 <= i < n ==> Remembered(actions, op, i, ids, splits, labels))
    && SplitNames(actions, op, n, splits)
  }

  /** Remembering the n-th action leaves what is remembered of an earlier one. */
  lemma StillRemembered(actions: seq<Action>, op: string, n: nat, i: nat, ids: map<nat, nat>, splits: map<string, nat>, labels: map<string, string>,
                        id: nat, count: nat, lbl: string)
    requires DistinctNames(actions) && i < n < |actions| && Remembered(actions, op, i, ids, splits, labels)
    ensures Remembered(actions, op, i, ids[n := id], splits, labels[actions[n].name := lbl])
    ensures Remembered(actions, op, i, ids[n := id], splits[actions[n].name := count], labels[actions[n].name := lbl])
  {
    assert actions[i].name != actions[n].name;
  }

  lemma SplitNamesNext(actions: seq<Action>, op: string, n: nat, splits: map<string, nat>, count: nat)
    requires n < |actions| && SplitNames(actions, op, n, splits)
    ensures SplitNames(actions, op, n + 1, if IsSplit(actions[n], op) then splits[actions[n].name := count] else splits)
  {
    var a := actions[n];
    var splits2 := if IsSplit(a, op) then splits[a.name := count] else splits;
    forall name | name in splits2 ensures exists i :: 0 <= i < n + 1 && actions[i].name == name && IsSplit(actions[i], op) {
      if name == a.name && IsSplit(a, op) {
        assert actions[n].name == name;
      } else {
        var i :| 0 <= i < n && actions[i].name == name && IsSplit(actions[i], op);
        assert i < n + 1;
      }
    }
  }

  lemma NotYetSplit(actions: seq<Action>, op: string, n: nat, splits: map<string, nat>)
    requires DistinctNames(actions) && n < |actions| && SplitNames(actions, op, n, splits)
    ensures actions[n].name !in splits
  {
    forall name | name in splits ensures name != actions[n].name {
      var i :| 0 <= i < n && actions[i].name == name && IsSplit(actions[i], op);
    }
  }

  lemma RememberNext(actions: seq<Action>, op: string, n: nat, ids: map<nat, nat>, splits: map<string, nat>, labels: map<string, string>)
    requires DistinctNames(actions) && n < |actions| && RememberedUpTo(actions, op, n, ids, splits, labels)
    ensures var a := actions[n];
      RememberedUpTo(actions, op, n + 1, ids[n := Start(actions, op, n)],
        if IsSplit(a, op) then splits[a.name := |Parts(a.prims, op)| - 1] else splits, labels[a.name := Label(a, op)])
  {
    var a, id, count := actions[n], Start(actions, op, n), |Parts(actions[n].prims, op)| - 1;
    var ids2, labels2 := ids[n := id], labels[a.name := Label(a, op)];
    var splits2 := if IsSplit(a, op) then splits[a.name := count] else splits;
    SplitNamesNext(actions, op, n, splits, count);
    NotYetSplit(actions, op, n, splits);
    assert Remembered(actions, op, n, ids2, splits2, labels2);
    forall i | 0 <= i < n + 1 ensures Remembered(actions, op, i, ids2, splits2, labels2) {
      if i < n { StillRemembered(actions, op, n, i, ids, splits, labels, id, count, Label(a, op)); }
    }
  }

  /** The n-th action is replaced; its new id is the number of actions written so far. */
  method SplitNext(actions: seq<Action>, op: string, n: nat, news: seq<Action>, offset: nat)
    returns (news2: seq<Action>, id: nat, count: nat, lbl: string)
    requires n < |actions| && IdsArePositions(actions)
    requires news == Numbered(Flat(Groups(actions, op), n)) && n + offset == |news|
    ensures news2 == Numbered(Flat(Groups(actions, op), n + 1)) && |news2| == |news| + count
    ensures id == Start(actions, op, n) && 1 <= count == |Parts(actions[n].prims, op)| && lbl == Label(actions[n], op)
  {
    GroupsAt(actions, op, n);
    id := actions[n].id + offset;
    var out;
    out, lbl := SplitOne(actions[n], op, id);
    AppendNumbered(Flat(Groups(actions, op), n), NamedParts(actions[n], op), out);
    news2, count := news + out, |out|;
  }

  method Remember(actions: seq<Action>, ghost op: string, n: nat, ids: map<nat, nat>, splits: map<string, nat>, labels: map<string, string>,
                  id: nat, count: nat, lbl: string)
    returns (ids2: map<nat, nat>, splits2: map<string, nat>, labels2: map<string, string>)
    requires DistinctNames(actions) && n < |actions| && RememberedUpTo(actions, op, n, ids, splits, labels)
    requires id == Start(actions, op, n) && count == |Parts(actions[n].prims, op)| && lbl == Label(actions[n], op)
    ensures RememberedUpTo(actions, op, n + 1, ids2, splits2, labels2)
  {
    RememberNext(actions, op, n, ids, splits, labels);
    ids2, labels2 := ids[n := id], labels[actions[n].name := lbl];
    splits2 := if count > 1 then splits[actions[n].name := count - 1] else splits;
  }

  lemma RememberedNone(actions: seq<Action>, op: string)
    ensures RememberedUpTo(actions, op, 0, map[], map[], map[])
  {
  }

  /** The first n actions are written. */
  ghost predicate Written(actions: seq<Action>, op: string, n: nat, news: seq<Action>, offset: nat) {
    n <= |actions| && news == Numbered(Flat(Groups(actions, op), n)) && n + offset == |news|
  }

  lemma WrittenNone(actions: seq<Action>, op: string)
    ensures Written(actions, op, 0, [], 0)
  {
    assert Flat(Groups(actions, op), 0) == [];
  }

  /** One action: split, written and remembered. */
  method SplitStep(actions: seq<Action>, op: string, n: nat, news: seq<Action>, offset: nat,
                   ids: map<nat, nat>, splits: map<string, nat>, labels: map<string, string>)
    returns (news2: seq<Action>, offset2: nat, ids2: map<nat, nat>, splits2: map<string, nat>, labels2: map<string, string>)
    requires IdsArePositions(actions) && DistinctNames(actions) && n < |actions|
    requires Written(actions, op, n, news, offset) && RememberedUpTo(actions, op, n, ids, splits, labels)
    ensures Written(actions, op, n + 1, news2, offset2) && RememberedUpTo(actions, op, n + 1, ids2, splits2, labels2)
  {
    var id, count, lbl;
    news2, id, count, lbl := SplitNext(actions, op, n, news, offset);
    offset2 := offset + count - 1;
    ids2, splits2, labels2 := Remember(actions, op, n, ids, splits, labels, id, count, lbl);
  }

  method SplitActions(actions: seq<Action>, op: string)
    returns (news: seq<Action>, ids: map<nat, nat>, splits: map<string, nat>, labels: map<string, string>)
    requires IdsArePositions(actions) && DistinctNames(actions)
    ensures news == NewActions(actions, op)
    ensures RememberedUpTo(actions, op, |actions|, ids, splits, labels)
  {
    news, ids, splits, labels := [], map[], map[], map[];
    var offset: nat := 0;
    RememberedNone(actions, op);
    WrittenNone(actions, op);
    for n := 0 to |actions|
      invariant Written(actions, op, n, news, offset)
      invariant RememberedUpTo(actions, op, n, ids, splits, labels)
    {
      news, offset, ids, splits, labels := SplitStep(actions, op, n, news, offset, ids, splits, labels);
    }
  }

  // ---------- Splitting a table ----------

  /** The endings of the names in a chain of tables. */
  function Ending(j: nat): string { if j == 0 then "" else if j == 1 then "_2" else "_3" }

  lemma EndingZero(name: string)
    ensures name + Ending(0) == name
  {
  }

  /** Names with endings are equal only if both parts are. */
  lemma EndingApart(a: string, b: string, i: nat, j: nat)
    requires 0 < i <= 2 && 0 < j <= 2 && a + Ending(i) == b + Ending(j)
    ensures a == b && i == j
  {
    var s, t := a + Ending(i), b + Ending(j);
    assert |s| == |a| + 2 && |t| == |b| + 2;
    assert s[|a| + 1] == Ending(i)[1] && t[|b| + 1] == Ending(j)[1];
    assert s[..|a|] == a && t[..|b|] == b;
  }

  /** Ordered dictionaries. */
  function Put(d: seq<(string, string)>, k: string, v: string): seq<(string, string)> {
    if d == [] then [(k, v)] else if d[0].0 == k then [(k, v)] + d[1..] else [d[0]] + Put(d[1..], k, v)
  }

  function Del(d: seq<(string, string)>, k: string): seq<(string, string)> {
    if d == [] then [] else if d[0].0 == k then d[1..] else [d[0]] + Del(d[1..], k)
  }

  /** A table that can be extended: it has one action, its default, and a successor for it. */
  predicate Extensible(u: Table) { u.actionIds == [u.byDefault] && |u.actions| == 1 && u.nextTables != [] }

  /** The j-th table of the chain that replaces a table; the last one leads where the table led. */
  function ChainTable(u: Table, extra: nat, lbl: string, j: nat): Table
    requires Extensible(u) && 0 < extra && j <= extra
  {
    var labels := if j == 0 then u.actions else [lbl];
    Table(u.name + Ending(j), u.id + j, [u.byDefault + j], labels, u.byDefault + j,
      if j < extra then Some(u.name + Ending(j + 1)) else u.next,
      if j < extra then [(labels[0], u.name + Ending(j + 1))] else Del(Put(u.nextTables, lbl, u.nextTables[0].1), u.nextTables[0].0))
  }

  function ChainOf(u: Table, extra: nat, lbl: string): (r: seq<Table>)
    requires Extensible(u) && 0 < extra
    ensures |r| == extra + 1 && forall j :: 0 <= j <= extra ==> r[j] == ChainTable(u, extra, lbl, j)
  {
    seq<Table>(extra + 1, j requires 0 <= j <= extra => ChainTable(u, extra, lbl, j))
  }

  /** The table after the i-th: a copy of the first with the next name, id and action. */
  function Successor(t: Table, i: nat, lbl: string): Table
    requires t.actionIds != []
  {
    t.(name := t.name + Ending(i + 1), id := t.id + i + 1,
      actionIds := seq(|t.actionIds|, k requires 0 <= k < |t.actionIds| => t.actionIds[k] + 1 + i),
      actions := [lbl],
      byDefault := t.actionIds[0] + 1 + i)
  }

  lemma SuccessorIs(t: Table, i: nat, lbl: string)
    requires Extensible(t)
    ensures Successor(t, i, lbl) == Table(t.name + Ending(i + 1), t.id + i + 1, [t.byDefault + i + 1], [lbl], t.byDefault + i + 1, t.next, t.nextTables)
  {
    assert Successor(t, i, lbl).actionIds == [t.byDefault + i + 1];
  }

  /** The loop that extends a table: every new table is linked from the one before, the last one gets the old successor. */
  method ExtendTable(t: Table, extra: nat, lbl: string) returns (out: seq<Table>)
    requires 0 < extra <= 2 && Extensible(t)
    ensures out == ChainOf(t, extra, lbl)
  {
    out := [t];
    EndingZero(t.name);
    for i := 0 to extra
      invariant |out| == i + 1 && forall j :: 0 <= j < i ==> out[j] == ChainTable(t, extra, lbl, j)
      invariant out[i] == if i == 0 then t else Successor(t, i - 1, lbl)
    {
      var t2 := Successor(t, i, lbl);
      if i > 0 { SuccessorIs(t, i - 1, lbl); }
      var prev := out[i].(next := Some(t2.name), nextTables := [(out[i].actions[0], t2.name)]);
      out := out[..i] + [prev, t2];
    }
    SuccessorIs(t, extra - 1, lbl);
    var key, val := out[extra].nextTables[0].0, out[extra].nextTables[0].1;
    out := out[extra := out[extra].(nextTables := Del(Put(out[extra].nextTables, out[extra].actions[0], val), key))];
  }

  // ---------- All tables ----------

  predicate InRange(actions: seq<Action>, t: Table) {
    t.byDefault < |actions| && forall k :: 0 <= k < |t.actionIds| ==> t.actionIds[k] < |actions|
  }

  /** A table names an action that is split. */
  predicate Lists(actions: seq<Action>, op: string, t: Table, i: int) {
    0 <= i < |actions| && IsSplit(actions[i], op) && actions[i].name in t.actions
  }

  /** A table that has only the i-th action. */
  predicate OnlyAction(actions: seq<Action>, t: Table, i: int) {
    0 <= i < |actions| && t.actions == [actions[i].name] && t.actionIds == [i] && t.byDefault == i && t.nextTables != []
  }

  /** Action ids are valid; a table that names a split action has only that action. */
  predicate TableOk(actions: seq<Action>, op: string, t: Table) {
    InRange(actions, t) && forall i :: 0 <= i < |actions| && Lists(actions, op, t, i) ==> OnlyAction(actions, t, i)
  }

  /** The last true entry among the first n. */
  function LastTrue(marks: seq<bool>, n: nat): Option<nat>
    requires n <= |marks|
  {
    if n == 0 then None else if marks[n - 1] then Some(n - 1) else LastTrue(marks, n - 1)
  }

  lemma {:induction false} LastTrueIs(marks: seq<bool>, n: nat)
    requires n <= |marks|
    ensures match LastTrue(marks, n)
      case None => forall i :: 0 <= i < n ==> !marks[i]
      case Some(i) => i < n && marks[i]
    decreases n
  {
    if n > 0 { LastTrueIs(marks, n - 1); }
  }

  /** Which of the actions a table names as split ones. */
  function Marks(actions: seq<Action>, op: string, t: Table): (r: seq<bool>)
    ensures |r| == |actions| && forall i :: 0 <= i < |r| ==> r[i] == Lists(actions, op, t, i)
  {
    seq(|actions|, i requires 0 <= i < |actions| => Lists(actions, op, t, i))
  }

  /** A split action that a table names. */
  function ListedIn(actions: seq<Action>, op: string, t: Table): Option<nat> { LastTrue(Marks(actions, op, t), |actions|) }

  lemma MarksMean(marks: seq<bool>, f: int -> bool, n: nat)
    requires |marks| == n && forall i :: 0 <= i < n ==> marks[i] == f(i)
    ensures match LastTrue(marks, n)
      case None => forall i :: 0 <= i < n ==> !f(i)
      case Some(i) => i < n && f(i)
  {
    LastTrueIs(marks, n);
    assert forall i :: 0 <= i < n ==> f(i) == marks[i];
  }

  lemma ListedIs(actions: seq<Action>, op: string, t: Table)
    ensures match ListedIn(actions, op, t)
      case None => forall i :: 0 <= i < |actions| ==> !Lists(actions, op, t, i)
      case Some(i) => i < |actions| && Lists(actions, op, t, i)
  {
    var f := i => Lists(actions, op, t, i);
    MarksMean(Marks(actions, op, t), f, |actions|);
    assert forall i :: f(i) == Lists(actions, op, t, i);
  }

  /** How a table is rewritten: the new ids of its actions, how many tables follow it, and their label. */
  datatype Place = Place(first: nat, ids: seq<nat>, extra: nat, lbl: string)

  /** The new ids of all actions. */
  function Starts(actions: seq<Action>, op: string): (r: seq<nat>)
    ensures |r| == |actions| && forall i :: 0 <= i < |r| ==> r[i] == Start(actions, op, i)
  {
    seq<nat>(|actions|, i requires 0 <= i < |actions| => Start(actions, op, i))
  }

  function Renumbered(xs: seq<nat>, starts: seq<nat>): (r: seq<nat>)
    requires forall k :: 0 <= k < |xs| ==> xs[k] < |starts|
    ensures |r| == |xs| && forall k :: 0 <= k < |xs| ==> r[k] == starts[xs[k]]
  {
    seq<nat>(|xs|, k requires 0 <= k < |xs| => starts[xs[k]])
  }

  function PlaceWith(actions: seq<Action>, op: string, starts: seq<nat>, t: Table): Place
    requires InRange(actions, t) && |starts| == |actions|
  {
    match ListedIn(actions, op, t)
    case None => Place(starts[t.byDefault], Renumbered(t.actionIds, starts), 0, "")
    case Some(i) =>
      ListedIs(actions, op, t);
      Place(starts[t.byDefault], Renumbered(t.actionIds, starts), |Parts(actions[i].prims, op)| - 1, Label(actions[i], op))
  }

  /** A table with its new ids. */
  function Moved(t: Table, p: Place, offset: nat): Table { t.(id := t.id + offset, actionIds := p.ids, byDefault := p.first) }

  /** The tables that replace a table. */
  function Rewrite(t: Table, p: Place, offset: nat): (r: seq<Table>)
    requires p.extra > 0 ==> Extensible(Moved(t, p, offset))
    ensures |r| == p.extra + 1
  {
    if p.extra == 0 then [Moved(t, p, offset)] else ChainOf(Moved(t, p, offset), p.extra, p.lbl)
  }

  /** What the remembered facts mean for a table. */
  ghost predicate Placed(t: Table, p: Place, ids: map<nat, nat>, splits: map<string, nat>, labels: map<string, string>) {
    && t.byDefault in ids && ids[t.byDefault] == p.first
    && |p.ids| == |t.actionIds| && (forall k :: 0 <= k < |p.ids| ==> t.actionIds[k] in ids && p.ids[k] == ids[t.actionIds[k]])
    && (p.extra > 0 ==> |t.actions| == 1 && t.actionIds == [t.byDefault] && t.nextTables != [])
    && (forall name | name in splits && name in t.actions ::
          t.actions == [name] && name in labels && labels[name] == p.lbl && 0 < splits[name] == p.extra <= 2)
    && ((forall name :: name in splits ==> name !in t.actions) ==> p.extra == 0)
  }

  method RenumberActions(xs: seq<nat>, ids: map<nat, nat>) returns (r: seq<nat>)
    requires forall k :: 0 <= k < |xs| ==> xs[k] in ids
    ensures |r| == |xs| && forall i :: 0 <= i < |xs| ==> r[i] == ids[xs[i]]
  {
    r := [];
    for i := 0 to |xs|
      invariant |r| == i && forall j :: 0 <= j < i ==> r[j] == ids[xs[j]]
    {
      r := r + [ids[xs[i]]];
    }
  }

  method SplitTable(t: Table, offset: nat, ids: map<nat, nat>, splits: map<string, nat>, labels: map<string, string>, ghost p: Place)
    returns (out: seq<Table>)
    requires Placed(t, p, ids, splits, labels)
    ensures out == Rewrite(t, p, offset)
  {
    var actionIds := RenumberActions(t.actionIds, ids);
    assert actionIds == p.ids;
    var u := t.(actionIds := actionIds, byDefault := ids[t.byDefault], id := t.id + offset);
    if name :| name in splits && name in t.actions {
      out := ExtendTable(u, splits[name], labels[t.actions[0]]);
    } else {
      out := [u];
    }
  }

  lemma TableFound(actions: seq<Action>, op: string, t: Table, ids: map<nat, nat>, splits: map<string, nat>, labels: map<string, string>, name: string)
    requires DistinctNames(actions) && RememberedUpTo(actions, op, |actions|, ids, splits, labels) && TableOk(actions, op, t)
    requires name in splits && name in t.actions
    ensures var p := PlaceWith(actions, op, Starts(actions, op), t);
      t.actions == [name] && name in labels && labels[name] == p.lbl && 0 < splits[name] == p.extra <= 2
  {
    var i :| 0 <= i < |actions| && actions[i].name == name && IsSplit(actions[i], op);
    assert Remembered(actions, op, i, ids, splits, labels);
    assert Lists(actions, op, t, i);
    assert OnlyAction(actions, t, i);
    ListedIs(actions, op, t);
    var j := ListedIn(actions, op, t).value;
    assert OnlyAction(actions, t, j);
  }

  lemma TableNotFound(actions: seq<Action>, op: string, t: Table, ids: map<nat, nat>, splits: map<string, nat>, labels: map<string, string>)
    requires RememberedUpTo(actions, op, |actions|, ids, splits, labels) && TableOk(actions, op, t)
    requires forall name :: name in splits ==> name !in t.actions
    ensures PlaceWith(actions, op, Starts(actions, op), t).extra == 0
  {
    ListedIs(actions, op, t);
    forall i | 0 <= i < |actions| && IsSplit(actions[i], op) ensures actions[i].name in splits {
      assert Remembered(actions, op, i, ids, splits, labels);
    }
  }

  lemma TableIds(actions: seq<Action>, op: string, t: Table, ids: map<nat, nat>, splits: map<string, nat>, labels: map<string, string>)
    requires RememberedUpTo(actions, op, |actions|, ids, splits, labels) && TableOk(actions, op, t)
    ensures var p := PlaceWith(actions, op, Starts(actions, op), t);
      && t.byDefault in ids && ids[t.byDefault] == p.first
      && |p.ids| == |t.actionIds| && (forall k :: 0 <= k < |p.ids| ==> t.actionIds[k] in ids && p.ids[k] == ids[t.actionIds[k]])
      && (p.extra > 0 ==> |t.actions| == 1 && t.actionIds == [t.byDefault] && t.nextTables != [])
  {
    assert Remembered(actions, op, t.byDefault, ids, splits, labels);
    var p := PlaceWith(actions, op, Starts(actions, op), t);
    assert p.ids == Renumbered(t.actionIds, Starts(actions, op));
    forall k | 0 <= k < |t.actionIds| ensures t.actionIds[k] in ids && p.ids[k] == ids[t.actionIds[k]] {
      assert Remembered(actions, op, t.actionIds[k], ids, splits, labels);
    }
    ListedIs(actions, op, t);
    var r := ListedIn(actions, op, t);
    if r.Some? { assert OnlyAction(actions, t, r.value); }
  }

  lemma TablePlaced(actions: seq<Action>, op: string, t: Table, ids: map<nat, nat>, splits: map<string, nat>, labels: map<string, string>)
    requires DistinctNames(actions) && RememberedUpTo(actions, op, |actions|, ids, splits, labels) && TableOk(actions, op, t)
    ensures Placed(t, PlaceWith(actions, op, Starts(actions, op), t), ids, splits, labels)
  {
    TableIds(actions, op, t, ids, splits, labels);
    var p := PlaceWith(actions, op, Starts(actions, op), t);
    forall name | name in splits && name in t.actions
      ensures t.actions == [name] && name in labels && labels[name] == p.lbl && 0 < splits[name] == p.extra <= 2
    {
      TableFound(actions, op, t, ids, splits, labels, name);
    }
    if forall name :: name in splits ==> name !in t.actions { TableNotFound(actions, op, t, ids, splits, labels); }
  }

  // ---------- A pipeline ----------

  /** The number of tables added by the first n. */
  function ExtraSum(places: seq<Place>, n: nat): nat
    requires n <= |places|
  {
    if n == 0 then 0 else ExtraSum(places, n - 1) + places[n - 1].extra
  }

  /** Every table can be rewritten as its place says. */
  ghost predicate Rewritable(ts: seq<Table>, places: seq<Place>) {
    && |ts| == |places|
    && forall i :: 0 <= i < |ts| && places[i].extra > 0 ==> Extensible(Moved(ts[i], places[i], 0))
  }

  /** The chains that replace the first n tables; the ids go on counting. */
  ghost function GroupsUpTo(ts: seq<Table>, places: seq<Place>, offset: nat, n: nat): (r: seq<seq<Table>>)
    requires Rewritable(ts, places) && n <= |ts|
    ensures |r| == n
  {
    if n == 0 then []
    else GroupsUpTo(ts, places, offset, n - 1) + [Rewrite(ts[n - 1], places[n - 1], offset + ExtraSum(places, n - 1))]
  }

  ghost predicate GroupIs(ts: seq<Table>, places: seq<Place>, groups: seq<seq<Table>>, offset: nat, i: int) {
    && 0 <= i < |ts| == |places|
    && i < |groups|
    && (places[i].extra > 0 ==> Extensible(Moved(ts[i], places[i], 0)))
    && groups[i] == Rewrite(ts[i], places[i], offset + ExtraSum(places, i))
  }

  ghost predicate GroupsAre(ts: seq<Table>, places: seq<Place>, groups: seq<seq<Table>>, offset: nat) {
    |groups| <= |ts| == |places| && forall i :: 0 <= i < |groups| ==> GroupIs(ts, places, groups, offset, i)
  }

  lemma {:induction false} GroupsUpToAre(ts: seq<Table>, places: seq<Place>, offset: nat, n: nat)
    requires Rewritable(ts, places) && n <= |ts|
    ensures GroupsAre(ts, places, GroupsUpTo(ts, places, offset, n), offset)
    decreases n
  {
    if n > 0 {
      GroupsUpToAre(ts, places, offset, n - 1);
      var front, all := GroupsUpTo(ts, places, offset, n - 1), GroupsUpTo(ts, places, offset, n);
      forall i | 0 <= i < n ensures GroupIs(ts, places, all, offset, i) {
        if i < n - 1 { assert GroupIs(ts, places, front, offset, i) && all[i] == front[i]; }
      }
    }
  }

  /** The tables of a pipeline after the split. */
  ghost function NewTables(ts: seq<Table>, places: seq<Place>, offset: nat): seq<Table>
    requires Rewritable(ts, places)
  {
    Flat(GroupsUpTo(ts, places, offset, |ts|), |ts|)
  }

  lemma {:induction false} FlatPrefix<T>(groups: seq<seq<T>>, g: seq<T>, n: nat)
    requires n <= |groups|
    ensures Flat(groups + [g], n) == Flat(groups, n)
    decreases n
  {
    if n > 0 { FlatPrefix(groups, g, n - 1); }
  }

  lemma {:induction false} FlatLength(groups: seq<seq<Table>>, places: seq<Place>, n: nat)
    requires n <= |groups| <= |places| && forall i :: 0 <= i < n ==> |groups[i]| == places[i].extra + 1
    ensures |Flat(groups, n)| == n + ExtraSum(places, n)
    decreases n
  {
    if n > 0 { FlatLength(groups, places, n - 1); }
  }

  /** One more table. */
  lemma NextGroup(ts: seq<Table>, places: seq<Place>, offset: nat, n: nat, out: seq<Table>)
    requires Rewritable(ts, places) && n < |ts| && out == Rewrite(ts[n], places[n], offset + ExtraSum(places, n))
    ensures Flat(GroupsUpTo(ts, places, offset, n + 1), n + 1) == Flat(GroupsUpTo(ts, places, offset, n), n) + out
  {
    var g := GroupsUpTo(ts, places, offset, n);
    FlatPrefix(g, out, n);
    assert GroupsUpTo(ts, places, offset, n + 1) == g + [out];
    assert (g + [out])[n] == out;
  }

  method SplitTables(ts: seq<Table>, start: nat, ids: map<nat, nat>, splits: map<string, nat>, labels: map<string, string>,
                     ghost places: seq<Place>)
    returns (news: seq<Table>, offset: nat)
    requires Rewritable(ts, places) && forall i :: 0 <= i < |ts| ==> Placed(ts[i], places[i], ids, splits, labels)
    ensures news == NewTables(ts, places, start)
    ensures offset == start + ExtraSum(places, |ts|)
  {
    news, offset := [], start;
    for n := 0 to |ts|
      invariant news == Flat(GroupsUpTo(ts, places, start, n), n)
      invariant offset == start + ExtraSum(places, n)
    {
      var out := SplitTable(ts[n], offset, ids, splits, labels, places[n]);
      NextGroup(ts, places, start, n, out);
      news := news + out;
      offset := offset + |out| - 1;
    }
  }
}
