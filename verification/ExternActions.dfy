/** Splitting the actions of a bmv2 program so that an extern primitive is alone in its action. */
module ExternActions {
  import opened Common

  datatype Prim = Prim(op: string, args: seq<string>)

  datatype Action = Action(name: string, id: nat, prims: seq<Prim>)

  // ---------- The parts of an action ----------

  function CountOp(ps: seq<Prim>, op: string): nat {
    if ps == [] then 0 else CountOp(ps[..|ps| - 1], op) + if ps[|ps| - 1].op == op then 1 else 0
  }

  /** The extern found, and the primitives before the first one and after it. */
  datatype Cut = Cut(before: seq<Prim>, extern_: Option<Prim>, after: seq<Prim>)

  function CutStep(c: Cut, p: Prim, op: string): Cut {
    if p.op == op then c.(extern_ := Some(p))
    else if c.extern_.None? then c.(before := c.before + [p])
    else c.(after := c.after + [p])
  }

  /** The loop over primitives: a later extern replaces an earlier one. */
  function CutAt(ps: seq<Prim>, op: string): Cut {
    if ps == [] then Cut([], None, []) else CutStep(CutAt(ps[..|ps| - 1], op), ps[|ps| - 1], op)
  }

  /** Where the primitives of a cut come from. */
  predicate CutFrom(c: Cut, ps: seq<Prim>, op: string) {
    && (forall p :: p in c.before ==> p in ps && p.op != op)
    && (forall p :: p in c.after ==> p in ps && p.op != op)
    && (c.extern_.Some? ==> c.extern_.value.op == op && c.extern_.value in ps)
    && (c.extern_.None? ==> c.after == [] && c.before == ps)
  }

  lemma {:induction false} CutComesFrom(ps: seq<Prim>, op: string)
    ensures CutFrom(CutAt(ps, op), ps, op)
    decreases |ps|
  {
    if ps != [] {
      CutComesFrom(ps[..|ps| - 1], op);
      assert ps == ps[..|ps| - 1] + [ps[|ps| - 1]];
    }
  }

  method CutPrimitives(ps: seq<Prim>, op: string) returns (c: Cut)
    ensures c == CutAt(ps, op)
  {
    var p1, p2, p3 := [], None, [];
    for i := 0 to |ps|
      invariant Cut(p1, p2, p3) == CutAt(ps[..i], op)
    {
      assert ps[..i + 1][..i] == ps[..i];
      if ps[i].op != op {
        if p2.None? { p1 := p1 + [ps[i]]; } else { p3 := p3 + [ps[i]]; }
      } else {
        p2 := Some(ps[i]);
      }
    }
    assert ps[..|ps|] == ps;
    return Cut(p1, p2, p3);
  }

  /** The primitives of the actions that replace an action. */
  function Parts(ps: seq<Prim>, op: string): (r: seq<seq<Prim>>)
    ensures 1 <= |r| <= 3
  {
    var c := CutAt(ps, op);
    if c.extern_.None? then [ps]
    else
      (if c.before == [] then [] else [c.before]) + [[c.extern_.value]] + (if c.after == [] then [] else [c.after])
  }

  function Join(parts: seq<seq<Prim>>): seq<Prim> {
    if parts == [] then [] else parts[0] + Join(parts[1..])
  }

  lemma JoinCons(a: seq<Prim>, parts: seq<seq<Prim>>)
    ensures Join([a] + parts) == a + Join(parts)
  {
    assert ([a] + parts)[1..] == parts;
  }

  lemma JoinFew(a: seq<Prim>, b: seq<Prim>, c: seq<Prim>)
    ensures Join([a]) == a && Join([a, b]) == a + b && Join([a, b, c]) == a + b + c
  {
    JoinCons(c, []);
    JoinCons(b, []);
    JoinCons(b, [c]);
    JoinCons(a, []);
    JoinCons(a, [b]);
    JoinCons(a, [b, c]);
    assert [c] + [] == [c] && [b] + [] == [b] && [a] + [] == [a];
    assert [b] + [c] == [b, c] && [a] + [b] == [a, b] && [a] + [b, c] == [a, b, c];
    assert a + [] == a && b + [] == b && c + [] == c && a + (b + c) == a + b + c;
  }

  function Rest(c: Cut): seq<Prim> { c.before + (if c.extern_.Some? then [c.extern_.value] else []) + c.after }

  lemma PartsJoin(ps: seq<Prim>, op: string)
    ensures Join(Parts(ps, op)) == Rest(CutAt(ps, op))
  {
    var c := CutAt(ps, op);
    CutComesFrom(ps, op);
    if c.extern_.Some? {
      var e := [c.extern_.value];
      JoinFew(e, c.after, []);
      JoinFew(c.before, e, c.after);
    } else {
      JoinFew(ps, [], []);
      assert Rest(c) == ps;
    }
  }

  lemma RestStep(c: Cut, p: Prim, op: string)
    requires c.extern_.None? ==> c.after == []
    ensures p.op != op || c.extern_.None? ==> Rest(CutStep(c, p, op)) == Rest(c) + [p]
    ensures p.op == op && c.extern_.Some? ==> |Rest(CutStep(c, p, op))| == |Rest(c)|
  {
  }

  lemma {:induction false} CutFound(ps: seq<Prim>, op: string)
    ensures CutAt(ps, op).extern_.Some? <==> CountOp(ps, op) > 0
    decreases |ps|
  {
    if ps != [] { CutFound(ps[..|ps| - 1], op); }
  }

  lemma {:induction false} CutSize(ps: seq<Prim>, op: string)
    ensures |Rest(CutAt(ps, op))| == |ps| - (if CountOp(ps, op) > 1 then CountOp(ps, op) - 1 else 0)
    decreases |ps|
  {
    if ps != [] {
      var front := ps[..|ps| - 1];
      CutSize(front, op);
      CutFound(front, op);
      CutComesFrom(front, op);
      RestStep(CutAt(front, op), ps[|ps| - 1], op);
    }
  }

  lemma {:induction false} CutKeeps(ps: seq<Prim>, op: string)
    requires CountOp(ps, op) <= 1
    ensures Rest(CutAt(ps, op)) == ps
    decreases |ps|
  {
    if ps != [] {
      var front := ps[..|ps| - 1];
      CutKeeps(front, op);
      CutFound(front, op);
      CutComesFrom(front, op);
      RestStep(CutAt(front, op), ps[|ps| - 1], op);
      assert ps == front + [ps[|ps| - 1]];
    }
  }

  /** The parts run the same primitives in the same order if and only if the extern occurs at most once. */
  lemma PartsSame(ps: seq<Prim>, op: string)
    ensures Join(Parts(ps, op)) == ps <==> CountOp(ps, op) <= 1
  {
    PartsJoin(ps, op);
    CutSize(ps, op);
    if CountOp(ps, op) <= 1 { CutKeeps(ps, op); }
  }

  /** An extern that is alone in its action. */
  predicate Alone(ps: seq<Prim>, op: string) { CountOp(ps, op) > 0 ==> |ps| == 1 }

  lemma {:induction false} CountNone(ps: seq<Prim>, op: string)
    ensures CountOp(ps, op) == 0 <==> forall p :: p in ps ==> p.op != op
    decreases |ps|
  {
    if ps != [] {
      CountNone(ps[..|ps| - 1], op);
      assert ps == ps[..|ps| - 1] + [ps[|ps| - 1]];
    }
  }

  /** After the split the extern is alone, whatever the action was. */
  lemma PartsAlone(ps: seq<Prim>, op: string, i: nat)
    requires i < |Parts(ps, op)|
    ensures Alone(Parts(ps, op)[i], op)
  {
    var c := CutAt(ps, op);
    CutFound(ps, op);
    CutComesFrom(ps, op);
    CountNone(c.before, op);
    CountNone(c.after, op);
  }

  /** And an extern that is alone before a split for another stays alone. */
  lemma PartsKeepAlone(ps: seq<Prim>, op: string, other: string, i: nat)
    requires Alone(ps, other) && i < |Parts(ps, op)|
    ensures Alone(Parts(ps, op)[i], other)
  {
    var c := CutAt(ps, op);
    CutComesFrom(ps, op);
    CountNone(ps, other);
    CountNone(Parts(ps, op)[i], other);
    if |ps| == 1 {
      assert ps[..0] == [] && CutAt([], op) == Cut([], None, []);
    }
  }

  // ---------- The list of actions ----------

  /** Whether the first of the parts keeps primitives from before the extern. */
  predicate HasFront(ps: seq<Prim>, op: string) { CutAt(ps, op).before != [] || CutAt(ps, op).extern_.None? }

  function PartName(a: Action, op: string, p: nat): string {
    if p == 0 then a.name else if p == 1 && HasFront(a.prims, op) then a.name + "_2" else a.name + "_3"
  }

  /** Groups put one after the other; the first n of them. */
  function Flat<T>(groups: seq<seq<T>>, n: nat): seq<T>
    requires n <= |groups|
  {
    if n == 0 then [] else Flat(groups, n - 1) + groups[n - 1]
  }

  lemma {:induction false} FlatAt<T>(groups: seq<seq<T>>, n: nat, i: nat, p: nat)
    requires i < n <= |groups| && p < |groups[i]|
    ensures |Flat(groups, i)| + p < |Flat(groups, n)| && Flat(groups, n)[|Flat(groups, i)| + p] == groups[i][p]
    decreases n
  {
    if i < n - 1 { FlatAt(groups, n - 1, i, p); }
  }

  lemma {:induction false} FlatFrom<T>(groups: seq<seq<T>>, n: nat, k: nat) returns (i: nat, p: nat)
    requires n <= |groups| && k < |Flat(groups, n)|
    ensures i < n && p < |groups[i]| && k == |Flat(groups, i)| + p && Flat(groups, n)[k] == groups[i][p]
    decreases n
  {
    if k < |Flat(groups, n - 1)| {
      i, p := FlatFrom(groups, n - 1, k);
    } else {
      i, p := n - 1, k - |Flat(groups, n - 1)|;
    }
  }

  datatype Part = Part(name: string, prims: seq<Prim>)

  /** The parts of every action, with their names. */
  function Groups(actions: seq<Action>, op: string): (r: seq<seq<Part>>)
    ensures |r| == |actions|
  {
    if actions == [] then [] else Groups(actions[..|actions| - 1], op) + [NamedParts(actions[|actions| - 1], op)]
  }

  lemma {:induction false} GroupsAt(actions: seq<Action>, op: string, i: nat)
    requires i < |actions|
    ensures Groups(actions, op)[i] == NamedParts(actions[i], op)
    decreases |actions|
  {
    if i < |actions| - 1 { GroupsAt(actions[..|actions| - 1], op, i); }
  }

  function NamedParts(a: Action, op: string): (r: seq<Part>)
    ensures |r| == |Parts(a.prims, op)|
    ensures forall p :: 0 <= p < |r| ==> r[p] == Part(PartName(a, op, p), Parts(a.prims, op)[p])
  {
    seq<Part>(|Parts(a.prims, op)|, p requires 0 <= p < |Parts(a.prims, op)| => Part(PartName(a, op, p), Parts(a.prims, op)[p]))
  }

  /** Ids are given by position. */
  function Numbered(parts: seq<Part>): (r: seq<Action>)
    ensures |r| == |parts| && forall k :: 0 <= k < |r| ==> r[k] == Action(parts[k].name, k, parts[k].prims)
  {
    seq<Action>(|parts|, k requires 0 <= k < |parts| => Action(parts[k].name, k, parts[k].prims))
  }

  /** The actions after the split. */
  function NewActions(actions: seq<Action>, op: string): seq<Action> { Numbered(Flat(Groups(actions, op), |actions|)) }

  /** The new id of an action: where its first part goes. */
  function Start(actions: seq<Action>, op: string, i: nat): nat
    requires i <= |actions|
  {
    |Flat(Groups(actions, op), i)|
  }

  /** What the k-th of the new actions is: part p of action i. */
  predicate IsPart(actions: seq<Action>, op: string, k: nat, i: nat, p: nat) {
    && k < |NewActions(actions, op)|
    && i < |actions|
    && p < |Parts(actions[i].prims, op)|
    && var part := NamedParts(actions[i], op)[p];
       NewActions(actions, op)[k] == Action(part.name, k, part.prims)
  }

  lemma NumberedFlat(g: seq<seq<Part>>, n: nat, i: nat, p: nat)
    requires i < n <= |g| && p < |g[i]|
    ensures var k := |Flat(g, i)| + p; k < |Flat(g, n)| && Numbered(Flat(g, n))[k] == Action(g[i][p].name, k, g[i][p].prims)
  {
    FlatAt(g, n, i, p);
  }

  lemma NewActionsAt(actions: seq<Action>, op: string, i: nat, p: nat)
    requires i < |actions| && p < |Parts(actions[i].prims, op)|
    ensures IsPart(actions, op, Start(actions, op, i) + p, i, p)
  {
    GroupsAt(actions, op, i);
    var g := Groups(actions, op);
    NumberedFlat(g, |actions|, i, p);
    assert g[i][p] == NamedParts(actions[i], op)[p];
  }

  /** Every new action is a part of an old one. */
  lemma NewActionsFrom(actions: seq<Action>, op: string, k: nat) returns (i: nat, p: nat)
    requires k < |NewActions(actions, op)|
    ensures IsPart(actions, op, k, i, p) && k == Start(actions, op, i) + p
  {
    i, p := FlatFrom(Groups(actions, op), |actions|, k);
    GroupsAt(actions, op, i);
  }

  predicate IdsArePositions(actions: seq<Action>) { forall i :: 0 <= i < |actions| ==> actions[i].id == i }

  predicate AllAlone(actions: seq<Action>, op: string) { forall i :: 0 <= i < |actions| ==> Alone(actions[i].prims, op) }

  predicate AtMostOnce(actions: seq<Action>, op: string) { forall i :: 0 <= i < |actions| ==> CountOp(actions[i].prims, op) <= 1 }

  /** Ids stay equal to positions, the extern is alone, and externs that were alone stay alone. */
  lemma NewActionsGood(actions: seq<Action>, op: string, other: string)
    ensures IdsArePositions(NewActions(actions, op)) && AllAlone(NewActions(actions, op), op)
    ensures AllAlone(actions, other) ==> AllAlone(NewActions(actions, op), other)
  {
    var news := NewActions(actions, op);
    forall k | 0 <= k < |news|
      ensures news[k].id == k && Alone(news[k].prims, op)
      ensures AllAlone(actions, other) ==> Alone(news[k].prims, other)
    {
      var i, p := NewActionsFrom(actions, op, k);
      PartsAlone(actions[i].prims, op, p);
      if AllAlone(actions, other) {
        assert Alone(actions[i].prims, other);
        PartsKeepAlone(actions[i].prims, op, other, p);
      }
    }
  }

  lemma {:induction false} CountIn(ps: seq<Prim>, qs: seq<Prim>, op: string)
    ensures CountOp(ps + qs, op) == CountOp(ps, op) + CountOp(qs, op)
    decreases |qs|
  {
    if qs == [] {
      assert ps + qs == ps;
    } else {
      assert (ps + qs)[..|ps + qs| - 1] == ps + qs[..|qs| - 1];
      CountIn(ps, qs[..|qs| - 1], op);
    }
  }

  lemma {:induction false} CountJoin(parts: seq<seq<Prim>>, p: nat, op: string)
    requires p < |parts|
    ensures CountOp(parts[p], op) <= CountOp(Join(parts), op)
    decreases |parts|
  {
    CountIn(parts[0], Join(parts[1..]), op);
    if p > 0 { CountJoin(parts[1..], p - 1, op); }
  }

  /** Splitting for one extern leaves the others at most once per action, so the next split can go on. */
  lemma NewActionsOnce(actions: seq<Action>, op: string, other: string)
    requires AtMostOnce(actions, op) && AtMostOnce(actions, other)
    ensures AtMostOnce(NewActions(actions, op), other)
  {
    var news := NewActions(actions, op);
    forall k | 0 <= k < |news| ensures CountOp(news[k].prims, other) <= 1 {
      var i, p := NewActionsFrom(actions, op, k);
      assert CountOp(actions[i].prims, op) <= 1 && CountOp(actions[i].prims, other) <= 1;
      PartsSame(actions[i].prims, op);
      CountJoin(Parts(actions[i].prims, op), p, other);
    }
  }

  /** The script's loop over all externs, on the actions. */
  function SplitAll(actions: seq<Action>, ops: seq<string>): seq<Action>
    decreases |ops|
  {
    if ops == [] then actions else NewActions(SplitAll(actions, ops[..|ops| - 1]), ops[|ops| - 1])
  }

  /** The last split: its own extern is alone after it, and the others that were alone stay so. */
  lemma LastSplit(before: seq<Action>, after: seq<Action>, op: string, other: string)
    requires after == NewActions(before, op) && (other == op || AllAlone(before, other))
    ensures AllAlone(after, other) && IdsArePositions(after)
  {
    NewActionsGood(before, op, other);
  }

  /** After all of them every named extern is alone in its action. */
  lemma {:induction false} AllIsolated(actions: seq<Action>, ops: seq<string>, k: nat)
    requires k < |ops|
    ensures AllAlone(SplitAll(actions, ops), ops[k]) && IdsArePositions(SplitAll(actions, ops))
    decreases |ops|
  {
    var n := |ops| - 1;
    if k < n { AllIsolated(actions, ops[..n], k); }
    LastSplit(SplitAll(actions, ops[..n]), SplitAll(actions, ops), ops[n], ops[k]);
  }
}
