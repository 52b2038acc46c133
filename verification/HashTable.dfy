/** The hash table: bucket chains and a list in order of insertion, refining a finite map. */
module HashTable {
  import opened Common
  import opened Bits
  import opened LinkedLists
  import opened HashBuckets
  import opened HashExpand

  type Key = seq<nat>

  const InitialLog2: nat := 5
  const CapacityThreshold: nat := 10

  // ---------- The invariant ----------

  /** The items and the map they represent have the same keys. */
  ghost predicate Represents(keys: map<Id, Key>, order: seq<Id>, view: map<Key, Id>) {
    && (forall x :: x in order ==> x in keys && keys[x] in view && view[keys[x]] == x)
    && (forall k :: k in view ==> view[k] in order && keys[view[k]] == k)
  }

  ghost predicate Hashed(hash: Key -> nat, keys: map<Id, Key>, hashv: map<Id, nat>, order: seq<Id>) {
    forall x :: x in order ==> x in keys && x in hashv && hashv[x] == hash(keys[x])
  }

  /** The application-order list. */
  ghost predicate Listed(app: Links, head: Option<Id>, tail: Id, order: seq<Id>) {
    && head == At(order, 0)
    && IsList(app, order)
    && (order != [] ==> tail == order[|order| - 1])
  }

  /** The buckets hold exactly these items. */
  ghost predicate Stored(hh: Links, hashv: map<Id, nat>, buckets: seq<Bucket>, log2: nat, numItems: nat, chains: seq<seq<Id>>, items: set<Id>) {
    && Chained(hh, hashv, buckets, chains, items)
    && |buckets| == Pow2(log2)
    && numItems == |items|
  }

  // ---------- Adding and removing, part by part ----------

  lemma RepresentsAdd(keys: map<Id, Key>, order: seq<Id>, view: map<Key, Id>, x: Id, key: Key)
    requires Represents(keys, order, view) && x !in order && key !in view
    ensures Represents(keys[x := key], order + [x], view[key := x])
  {
  }

  lemma RepresentsRemove(keys: map<Id, Key>, order: seq<Id>, view: map<Key, Id>, k: nat)
    requires Represents(keys, order, view) && Distinct(order) && k < |order|
    ensures order[k] in keys && Represents(keys, Without(order, k), view - {keys[order[k]]})
  {
    WithoutMembers(order, k);
    assert order[k] in order;
  }

  lemma HashedAdd(hash: Key -> nat, keys: map<Id, Key>, hashv: map<Id, nat>, order: seq<Id>, x: Id, key: Key)
    requires Hashed(hash, keys, hashv, order) && x !in order
    ensures Hashed(hash, keys[x := key], hashv[x := hash(key)], order + [x])
  {
  }

  lemma ListedFirst(app: Links, x: Id, tail: Id)
    ensures Listed(app.SetNext(Some(x), None).SetPrev(Some(x), None), Some(x), x, [x])
  {
    var m := app.SetNext(Some(x), None).SetPrev(Some(x), None);
    assert NextOk(m, [x], 0) && PrevOk(m, [x], 0);
  }

  lemma ListedAppend(app: Links, head: Option<Id>, tail: Id, order: seq<Id>, x: Id)
    requires Listed(app, head, tail, order) && order != [] && x !in order
    ensures Listed(PushBack(app, tail, x), head, x, order + [x])
  {
    PushBackIsList(app, order, x);
  }

  lemma NewHash(hh: Links, hashv: map<Id, nat>, buckets: seq<Bucket>, chains: seq<seq<Id>>, items: set<Id>, x: Id, h: nat)
    requires Chained(hh, hashv, buckets, chains, items) && x !in items
    ensures Chained(hh, hashv[x := h], buckets, chains, items)
  {
  }

  /** The chain of a key's bucket holds its item and no other item with that key. */
  lemma ChainForKey(hash: Key -> nat, keys: map<Id, Key>, hashv: map<Id, nat>, hh: Links, buckets: seq<Bucket>, chains: seq<seq<Id>>,
                    order: seq<Id>, view: map<Key, Id>, key: Key, b: nat)
    requires Hashed(hash, keys, hashv, order) && Represents(keys, order, view)
    requires Chained(hh, hashv, buckets, chains, Items(order)) && b == hash(key) % |buckets|
    ensures ChainOk(hh, buckets, chains, b)
    ensures key in view ==> view[key] in chains[b]
    ensures forall x :: x in chains[b] ==> x in keys && x in hashv && (keys[x] == key ==> hashv[x] == hash(key))
    ensures forall x :: x in chains[b] && keys[x] == key ==> key in view && view[key] == x
  {
    assert ChainOk(hh, buckets, chains, b);
    assert forall x :: x in chains[b] ==> x in Items(order);
    if key in view { assert view[key] in Items(order); }
  }

  /** HASH_FIND_IN_BKT. */
  method FindInBucket(hh: Links, hashv: map<Id, nat>, keys: map<Id, Key>, first: Option<Id>, key: Key, h: nat, ghost chain: seq<Id>)
    returns (r: Option<Id>)
    requires IsList(hh, chain) && first == At(chain, 0)
    requires forall x :: x in chain ==> x in keys && x in hashv && (keys[x] == key ==> hashv[x] == h)
    ensures r.Some? ==> r.value in chain && keys[r.value] == key
    ensures r.None? ==> forall x :: x in chain ==> keys[x] != key
  {
    r := first;
    ghost var i := 0;
    while r.Some?
      invariant 0 <= i <= |chain| && r == At(chain, i)
      invariant forall j :: 0 <= j < i ==> chain[j] in keys && keys[chain[j]] != key
      decreases |chain| - i
    {
      assert chain[i] in chain && NextOk(hh, chain, i);
      if hashv[r.value] == h && keys[r.value] == key { return; }
      r := hh.next[r.value];
      i := i + 1;
    }
  }

  /** HASH_ADD_TO_BKT up to the test for expansion. */
  method PutInBucket(hh: Links, hashv: map<Id, nat>, buckets: seq<Bucket>, log2: nat, x: Id, ghost chains: seq<seq<Id>>, ghost items: set<Id>)
    returns (hh2: Links, buckets2: seq<Bucket>, full: bool, ghost chains2: seq<seq<Id>>)
    requires Chained(hh, hashv, buckets, chains, items) && |buckets| == Pow2(log2) && x !in items && x in hashv
    ensures Chained(hh2, hashv, buckets2, chains2, items + {x}) && |buckets2| == |buckets|
    ensures var b := Slot(hashv, x, |buckets|);
      full == (buckets[b].count + 1 >= (buckets[b].mult + 1) * CapacityThreshold)
  {
    MaskIsMod(hashv[x], log2);
    var b := And(hashv[x], Mask(log2));
    var k := Bucket(Some(x), buckets[b].count + 1, buckets[b].mult);
    MoveChained(hh, hashv, buckets, chains, items, x, b, k);
    hh2, buckets2, chains2 := PushFront(hh, buckets[b].head, x), buckets[b := k], chains[b := [x] + chains[b]];
    full := k.count >= (k.mult + 1) * CapacityThreshold;
  }

  lemma ItemsAppend(order: seq<Id>, x: Id)
    ensures Items(order + [x]) == Items(order) + {x}
  {
  }

  /** An item without neighbours is the only one. */
  lemma Alone(app: Links, order: seq<Id>, k: nat)
    requires IsList(app, order) && k < |order|
    ensures order[k] in app.next && order[k] in app.prev
    ensures app.prev[order[k]] == None && app.next[order[k]] == None <==> |order| == 1
    ensures app.prev[order[k]] == At(order, k - 1) && app.next[order[k]] == At(order, k + 1)
  {
    assert NextOk(app, order, k) && PrevOk(app, order, k);
  }

  lemma ListedRemove(app: Links, head: Option<Id>, tail: Id, order: seq<Id>, k: nat)
    requires Listed(app, head, tail, order) && k < |order| && |order| > 1
    ensures var x := order[k];
      && x in app.next && x in app.prev
      && (x == tail ==> app.prev[x].Some?)
      && Listed(Unlink(app, x), if app.prev[x].Some? then head else app.next[x],
        if x == tail then app.prev[x].value else tail, Without(order, k))
  {
    Alone(app, order, k);
    UnlinkIsList(app, order, k);
  }

  lemma ItemsRemove(order: seq<Id>, k: nat)
    requires Distinct(order) && k < |order|
    ensures Items(Without(order, k)) == Items(order) - {order[k]}
  {
    WithoutMembers(order, k);
  }

  lemma HashedRemove(hash: Key -> nat, keys: map<Id, Key>, hashv: map<Id, nat>, order: seq<Id>, k: nat)
    requires Hashed(hash, keys, hashv, order) && Distinct(order) && k < |order|
    ensures Hashed(hash, keys, hashv, Without(order, k))
  {
    WithoutMembers(order, k);
  }

  /** HASH_DEL_IN_BKT in the bucket of the item. */
  method TakeFromBucket(hh: Links, hashv: map<Id, nat>, buckets: seq<Bucket>, log2: nat, x: Id, ghost chains: seq<seq<Id>>, ghost items: set<Id>)
    returns (hh2: Links, buckets2: seq<Bucket>, ghost chains2: seq<seq<Id>>)
    requires Chained(hh, hashv, buckets, chains, items) && |buckets| == Pow2(log2) && x in items
    ensures Chained(hh2, hashv, buckets2, chains2, items - {x}) && |buckets2| == |buckets|
  {
    MaskIsMod(hashv[x], log2);
    var b := And(hashv[x], Mask(log2));
    ghost var k :| 0 <= k < |chains[b]| && chains[b][k] == x;
    ChainedDel(hh, hashv, buckets, chains, items, x, k);
    var bk := buckets[b].(count := buckets[b].count - 1);
    if bk.head == Some(x) { bk := bk.(head := hh.next[x]); }
    hh2, buckets2, chains2 := Unlink(hh, x), buckets[b := bk], chains[b := Without(chains[b], k)];
    assert buckets2 == DelFrom(hh, buckets, b, x);
  }

  class Table {
    const hash: Key -> nat
    var keys: map<Id, Key>
    var hashv: map<Id, nat>
    var app: Links
    var hh: Links
    var head: Option<Id>
    var tail: Id
    var buckets: seq<Bucket>
    var log2: nat
    var numItems: nat
    var ideal: nat
    var nonideal: nat
    var ineffective: nat
    var noexpand: bool

    ghost var order: seq<Id>
    ghost var chains: seq<seq<Id>>
    ghost var view: map<Key, Id>

    /** A table exists as long as there are items. */
    ghost predicate Valid()
      reads this
    {
      && Listed(app, head, tail, order)
      && Hashed(hash, keys, hashv, order)
      && Represents(keys, order, view)
      && (order != [] ==> Stored(hh, hashv, buckets, log2, numItems, chains, Items(order)))
    }

    constructor (h: Key -> nat)
      ensures Valid() && hash == h && order == [] && view == map[]
    {
      hash := h;
      keys, hashv := map[], map[];
      app, hh := Links(map[], map[]), Links(map[], map[]);
      head, tail, buckets, log2, numItems := None, 0, [], 0, 0;
      ideal, nonideal, ineffective, noexpand := 0, 0, 0, false;
      order, chains, view := [], [], map[];
    }

    // ---------- Find ----------

    /** HASH_FIND: exactly the item of the key, if there is one. */
    method Find(key: Key) returns (r: Option<Id>)
      requires Valid()
      ensures r == if key in view then Some(view[key]) else None
    {
      if head.None? { return None; }
      var h := hash(key);
      MaskIsMod(h, log2);
      var b := And(h, Mask(log2));
      ChainForKey(hash, keys, hashv, hh, buckets, chains, order, view, key, b);
      r := FindInBucket(hh, hashv, keys, buckets[b].head, key, h, chains[b]);
    }

    // ---------- Add ----------

    /** HASH_MAKE_TABLE: 32 empty buckets. */
    method MakeTable()
      modifies this`buckets, this`log2, this`numItems, this`ideal, this`nonideal, this`ineffective, this`noexpand, this`chains
      ensures Stored(hh, hashv, buckets, log2, numItems, chains, {}) && !noexpand && ineffective == 0
    {
      log2, numItems := InitialLog2, 0;
      ideal, nonideal, ineffective, noexpand := 0, 0, 0, false;
      EmptyChained(hh, hashv, Pow2(InitialLog2), 1);
      buckets, chains := NoBuckets(Pow2(InitialLog2)), NoChains(Pow2(InitialLog2));
    }

    /** HASH_EXPAND_BUCKETS on the table: twice the buckets, with the ideal chain length for them. */
    method ExpandTable(ghost items: set<Id>)
      requires Stored(hh, hashv, buckets, log2, numItems, chains, items) && items != {}
      modifies this`hh, this`buckets, this`log2, this`ideal, this`nonideal, this`ineffective, this`noexpand, this`chains
      ensures Stored(hh, hashv, buckets, log2, numItems, chains, items) && log2 == old(log2) + 1
      ensures IsCeiling(ideal, numItems, |buckets|) && Statistics(buckets, ideal, nonideal)
      ensures ineffective == if nonideal > numItems / 2 then old(ineffective) + 1 else 0
      ensures noexpand == (old(noexpand) || ineffective > 1)
    {
      hh, buckets, ideal, nonideal, chains := Expand(hh, hashv, buckets, log2, numItems, chains, items);
      log2 := log2 + 1;
      Judge();
    }

    /** After two ineffective expansions in a row the table expands no more. */
    method Judge()
      modifies this`ineffective, this`noexpand
      ensures ineffective == if nonideal > numItems / 2 then old(ineffective) + 1 else 0
      ensures noexpand == (old(noexpand) || ineffective > 1)
    {
      ineffective := if nonideal > numItems / 2 then ineffective + 1 else 0;
      if ineffective > 1 { noexpand := true; }
    }

    /** The item goes to the front of its bucket. */
    method AddToBucket(x: Id, ghost items: set<Id>) returns (full: bool)
      requires Stored(hh, hashv, buckets, log2, numItems, chains, items) && x !in items && x in hashv
      modifies this`hh, this`buckets, this`numItems, this`chains
      ensures Stored(hh, hashv, buckets, log2, numItems, chains, items + {x})
    {
      numItems := numItems + 1;
      hh, buckets, full, chains := PutInBucket(hh, hashv, buckets, log2, x, chains, items);
    }

    /** HASH_ADD_TO_TABLE: adding to a bucket may make the table expand. */
    method AddToTable(x: Id, ghost items: set<Id>)
      requires Stored(hh, hashv, buckets, log2, numItems, chains, items) && x !in items && x in hashv
      modifies this`hh, this`buckets, this`log2, this`numItems, this`ideal, this`nonideal, this`ineffective, this`noexpand, this`chains
      ensures Stored(hh, hashv, buckets, log2, numItems, chains, items + {x})
    {
      var full := AddToBucket(x, items);
      if full && !noexpand { ExpandTable(items + {x}); }
    }

    /** The first item makes the table; any other is put at the end of the list. */
    method AppendToList(x: Id)
      requires Valid() && x !in order
      modifies this`app, this`head, this`tail
      modifies this`buckets, this`log2, this`numItems, this`ideal, this`nonideal, this`ineffective, this`noexpand, this`chains
      ensures Listed(app, head, tail, order + [x])
      ensures Stored(hh, hashv, buckets, log2, numItems, chains, Items(order))
    {
      if head.None? {
        ListedFirst(app, x, tail);
        app := app.SetNext(Some(x), None).SetPrev(Some(x), None);
        MakeTable();
        head, tail := Some(x), x;
        assert order + [x] == [x] && Items(order) == {};
      } else {
        ListedAppend(app, head, tail, order, x);
        app := PushBack(app, tail, x);
        tail := x;
      }
    }

    /** The key and the hash value of a new item. */
    method Record(x: Id, key: Key, ghost items: set<Id>)
      requires x !in order && key !in view && items == Items(order)
      requires Hashed(hash, keys, hashv, order) && Represents(keys, order, view)
      requires Stored(hh, hashv, buckets, log2, numItems, chains, items)
      modifies this`keys, this`hashv, this`order, this`view
      ensures Hashed(hash, keys, hashv, order) && Represents(keys, order, view)
      ensures Stored(hh, hashv, buckets, log2, numItems, chains, items) && x in hashv
      ensures order == old(order) + [x] && view == old(view)[key := x]
    {
      RepresentsAdd(keys, order, view, x, key);
      HashedAdd(hash, keys, hashv, order, x, key);
      NewHash(hh, hashv, buckets, chains, items, x, hash(key));
      keys, hashv := keys[x := key], hashv[x := hash(key)];
      order, view := order + [x], view[key := x];
    }

    method Enlist(x: Id, key: Key, ghost items: set<Id>)
      requires Valid() && x !in order && key !in view && items == Items(order)
      modifies this
      ensures Listed(app, head, tail, order) && Hashed(hash, keys, hashv, order) && Represents(keys, order, view)
      ensures order == old(order) + [x] && view == old(view)[key := x]
      ensures Stored(hh, hashv, buckets, log2, numItems, chains, items) && x in hashv && Items(order) == items + {x}
    {
      ItemsAppend(order, x);
      AppendToList(x);
      Record(x, key, items);
    }

    /** HASH_ADD for a key that is absent. */
    method Add(x: Id, key: Key)
      requires Valid() && x !in order && key !in view
      modifies this
      ensures Valid() && order == old(order) + [x] && view == old(view)[key := x]
    {
      ghost var items := Items(order);
      Enlist(x, key, items);
      AddToTable(x, items);
    }

    // ---------- Delete ----------

    /** The item leaves the list; the caller has made sure that it is not the only one. */
    method Unlist(x: Id, ghost k: nat)
      requires Listed(app, head, tail, order) && k < |order| && |order| > 1 && x == order[k]
      modifies this`app, this`head, this`tail
      ensures Listed(app, head, tail, Without(order, k))
    {
      ListedRemove(app, head, tail, order, k);
      var prev, next := app.prev[x], app.next[x];
      if x == tail { tail := prev.value; }
      if prev.Some? { app := app.SetNext(prev, next); } else { head := next; }
      if next.Some? { app := app.SetPrev(next, prev); }
    }

    /** The item leaves its bucket. */
    method Unstore(x: Id, ghost items: set<Id>)
      requires Stored(hh, hashv, buckets, log2, numItems, chains, items) && x in items
      modifies this`hh, this`buckets, this`numItems, this`chains
      ensures Stored(hh, hashv, buckets, log2, numItems, chains, items - {x})
    {
      hh, buckets, chains := TakeFromBucket(hh, hashv, buckets, log2, x, chains, items);
      numItems := numItems - 1;
    }

    /** The last item takes the table with it. */
    method DeleteOnly(x: Id)
      requires Valid() && order == [x]
      modifies this`head, this`order, this`view
      ensures Valid() && order == [] && x in keys && view == old(view) - {keys[x]}
    {
      RepresentsRemove(keys, order, view, 0);
      assert Without(order, 0) == [];
      head := None;
      order, view := [], view - {keys[x]};
    }

    /** Any other item leaves the list and its bucket. */
    method DeleteOne(x: Id, ghost k: nat)
      requires Valid() && k < |order| && |order| > 1 && order[k] == x
      modifies this`app, this`head, this`tail, this`hh, this`buckets, this`numItems, this`chains
      ensures Listed(app, head, tail, Without(order, k))
      ensures Stored(hh, hashv, buckets, log2, numItems, chains, Items(Without(order, k)))
    {
      ItemsRemove(order, k);
      assert x in Items(order);
      Unstore(x, Items(order));
      Unlist(x, k);
    }

    method Forget(x: Id, ghost k: nat)
      requires Hashed(hash, keys, hashv, order) && Represents(keys, order, view) && k < |order| && order[k] == x && Distinct(order)
      modifies this`order, this`view
      ensures Hashed(hash, keys, hashv, order) && Represents(keys, order, view)
      ensures x in keys && view == old(view) - {keys[x]} && order == Without(old(order), k)
    {
      RepresentsRemove(keys, order, view, k);
      HashedRemove(hash, keys, hashv, order, k);
      order, view := Without(order, k), view - {keys[x]};
    }

    /** HASH_DELETE of the item at some place in the list: it leaves the list, its bucket and the map, and nothing else does. */
    method Delete(x: Id, ghost k: nat)
      requires Valid() && k < |order| && order[k] == x
      modifies this
      ensures Valid() && x in keys && view == old(view) - {keys[x]} && order == Without(old(order), k)
    {
      Alone(app, order, k);
      if app.prev[x].None? && app.next[x].None? {
        DeleteOnly(x);
      } else {
        DeleteOne(x, k);
        Forget(x, k);
      }
    }
  }
}
