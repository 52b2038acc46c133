/** Doubly linked lists through next and prev fields, one map per field, as pointers into a set of items. */
module LinkedLists {
  import opened Common

  type Id = nat

  datatype Links = Links(next: map<Id, Option<Id>>, prev: map<Id, Option<Id>>) {
    function SetNext(x: Option<Id>, y: Option<Id>): Links { if x.Some? then this.(next := next[x.value := y]) else this }
    function SetPrev(x: Option<Id>, y: Option<Id>): Links { if x.Some? then this.(prev := prev[x.value := y]) else this }
  }

  function At(s: seq<Id>, i: int): Option<Id> { if 0 <= i < |s| then Some(s[i]) else None }

  predicate Distinct(s: seq<Id>) { forall i, j :: 0 <= i < j < |s| ==> s[i] != s[j] }

  predicate NextOk(l: Links, s: seq<Id>, i: int) { 0 <= i < |s| && s[i] in l.next && l.next[s[i]] == At(s, i + 1) }

  predicate PrevOk(l: Links, s: seq<Id>, i: int) { 0 <= i < |s| && s[i] in l.prev && l.prev[s[i]] == At(s, i - 1) }

  /** The next fields lead along the sequence. */
  predicate Forward(l: Links, s: seq<Id>) { Distinct(s) && forall i :: 0 <= i < |s| ==> NextOk(l, s, i) }

  /** A consistent doubly linked list of these items. */
  predicate IsList(l: Links, s: seq<Id>) { Forward(l, s) && forall i :: 0 <= i < |s| ==> PrevOk(l, s, i) }

  // ---------- Operations on a list ----------

  function PushFront(l: Links, head: Option<Id>, x: Id): Links {
    l.SetNext(Some(x), head).SetPrev(Some(x), None).SetPrev(head, Some(x))
  }

  lemma PushFrontIsList(l: Links, s: seq<Id>, x: Id)
    requires IsList(l, s) && x !in s
    ensures IsList(PushFront(l, At(s, 0), x), [x] + s)
  {
    var m, t := PushFront(l, At(s, 0), x), [x] + s;
    forall i | 0 <= i < |t| ensures NextOk(m, t, i) && PrevOk(m, t, i) {
      if i > 0 { assert NextOk(l, s, i - 1) && PrevOk(l, s, i - 1) && t[i] == s[i - 1]; }
    }
  }

  /** Pushing onto one list leaves lists of other items alone. */
  lemma PushFrontFrame(l: Links, head: Option<Id>, x: Id, t: seq<Id>)
    requires IsList(l, t) && x !in t && (head.Some? ==> head.value !in t)
    ensures IsList(PushFront(l, head, x), t)
  {
    var m := PushFront(l, head, x);
    forall i | 0 <= i < |t| ensures NextOk(m, t, i) && PrevOk(m, t, i) { assert NextOk(l, t, i) && PrevOk(l, t, i); }
  }

  lemma PushFrontForward(l: Links, head: Option<Id>, x: Id, t: seq<Id>)
    requires Forward(l, t) && x !in t
    ensures Forward(PushFront(l, head, x), t)
  {
    var m := PushFront(l, head, x);
    forall i | 0 <= i < |t| ensures NextOk(m, t, i) { assert NextOk(l, t, i); }
  }

  function PushBack(l: Links, tail: Id, x: Id): Links {
    l.SetNext(Some(x), None).SetPrev(Some(x), Some(tail)).SetNext(Some(tail), Some(x))
  }

  lemma PushBackIsList(l: Links, s: seq<Id>, x: Id)
    requires IsList(l, s) && x !in s && s != []
    ensures IsList(PushBack(l, s[|s| - 1], x), s + [x])
  {
    var m, t := PushBack(l, s[|s| - 1], x), s + [x];
    forall i | 0 <= i < |t| ensures NextOk(m, t, i) && PrevOk(m, t, i) {
      if i < |s| { assert NextOk(l, s, i) && PrevOk(l, s, i) && t[i] == s[i]; }
    }
  }

  /** The neighbours of an item are joined. */
  function Unlink(l: Links, x: Id): Links
    requires x in l.next && x in l.prev
  {
    l.SetNext(l.prev[x], l.next[x]).SetPrev(l.next[x], l.prev[x])
  }

  function Without(s: seq<Id>, k: nat): seq<Id>
    requires k < |s|
  {
    s[..k] + s[k + 1..]
  }

  /** The fields of the other items after an item is unlinked. */
  lemma UnlinkAt(l: Links, s: seq<Id>, k: nat, j: nat)
    requires IsList(l, s) && k < |s| && j < |s| && j != k
    ensures NextOk(l, s, k) && PrevOk(l, s, k)
    ensures var m := Unlink(l, s[k]);
      && s[j] in m.next && m.next[s[j]] == (if j == k - 1 then At(s, k + 1) else At(s, j + 1))
      && s[j] in m.prev && m.prev[s[j]] == (if j == k + 1 then At(s, k - 1) else At(s, j - 1))
  {
    assert NextOk(l, s, k) && PrevOk(l, s, k);
    assert NextOk(l, s, j) && PrevOk(l, s, j);
  }

  lemma UnlinkIsList(l: Links, s: seq<Id>, k: nat)
    requires IsList(l, s) && k < |s|
    ensures NextOk(l, s, k) && PrevOk(l, s, k) && IsList(Unlink(l, s[k]), Without(s, k))
  {
    assert NextOk(l, s, k) && PrevOk(l, s, k);
    var m, t := Unlink(l, s[k]), Without(s, k);
    WithoutDistinct(s, k);
    forall i | 0 <= i < |t| ensures NextOk(m, t, i) && PrevOk(m, t, i) { UnlinkAt(l, s, k, if i < k then i else i + 1); }
  }

  lemma WithoutDistinct(s: seq<Id>, k: nat)
    requires Distinct(s) && k < |s|
    ensures Distinct(Without(s, k))
  {
    var t := Without(s, k);
    assert forall i :: 0 <= i < |t| ==> t[i] == s[if i < k then i else i + 1];
  }

  lemma UnlinkFrame(l: Links, s: seq<Id>, k: nat, t: seq<Id>)
    requires IsList(l, s) && k < |s| && IsList(l, t) && forall x :: x in s ==> x !in t
    ensures NextOk(l, s, k) && PrevOk(l, s, k) && IsList(Unlink(l, s[k]), t)
  {
    assert NextOk(l, s, k) && PrevOk(l, s, k);
    assert (k + 1 < |s| ==> s[k + 1] in s) && (k > 0 ==> s[k - 1] in s);
    var m := Unlink(l, s[k]);
    forall i | 0 <= i < |t| ensures NextOk(m, t, i) && PrevOk(m, t, i) { assert NextOk(l, t, i) && PrevOk(l, t, i); }
  }

  lemma WithoutMembers(s: seq<Id>, k: nat)
    requires k < |s| && Distinct(s)
    ensures forall x :: x in Without(s, k) <==> x in s && x != s[k]
  {
    forall x | x in s && x != s[k] ensures x in Without(s, k) {
      var i :| 0 <= i < |s| && s[i] == x;
      assert Without(s, k)[if i < k then i else i - 1] == x;
    }
    forall x | x in Without(s, k) ensures x in s && x != s[k] {
      var i :| 0 <= i < |Without(s, k)| && Without(s, k)[i] == x;
      assert s[if i < k then i else i + 1] == x;
    }
  }
}
