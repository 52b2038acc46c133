/** Doubling the buckets: every item moves to the front of its new chain. */
module HashExpand {
  import opened Common
  import opened Bits
  import opened LinkedLists
  import opened HashBuckets

  // ---------- Chain lengths ----------

  /** Items beyond the ideal chain length. */
  function Over(count: nat, ideal: nat): nat { if count > ideal then count - ideal else 0 }

  function Excess(buckets: seq<Bucket>, ideal: nat): nat {
    if buckets == [] then 0 else Excess(buckets[..|buckets| - 1], ideal) + Over(buckets[|buckets| - 1].count, ideal)
  }

  lemma {:induction false} ExcessUpdate(buckets: seq<Bucket>, ideal: nat, b: nat, k: Bucket)
    requires b < |buckets|
    ensures Excess(buckets[b := k], ideal) == Excess(buckets, ideal) - Over(buckets[b].count, ideal) + Over(k.count, ideal)
    decreases |buckets|
  {
    var n := |buckets| - 1;
    if b < n {
      assert buckets[b := k][..n] == buckets[..n][b := k];
      ExcessUpdate(buckets[..n], ideal, b, k);
    } else {
      assert buckets[b := k][..n] == buckets[..n];
    }
  }

  /** A longer chain than ideal allows itself a multiple of the threshold. */
  predicate MultOk(k: Bucket, ideal: nat) { ideal > 0 && k.mult == if k.count > ideal then k.count / ideal else 0 }

  predicate Statistics(buckets: seq<Bucket>, ideal: nat, nonideal: nat) {
    && nonideal == Excess(buckets, ideal)
    && forall b :: 0 <= b < |buckets| ==> MultOk(buckets[b], ideal)
  }

  /** The least length that holds n items in d chains. */
  predicate IsCeiling(c: nat, n: nat, d: nat) { n <= c * d && (c == 0 || (c - 1) * d < n) }

  lemma CeilingOf(n: nat, d: nat, q: nat, r: nat)
    requires n == q * d + r && r < d
    ensures IsCeiling(if r != 0 then q + 1 else q, n, d)
  {
    assert (q + 1) * d == q * d + d;
    assert (q - 1) * d == q * d - d;
  }

  function Mask(l: nat): nat { Pow2(l) - 1 }

  /** ideal_chain_maxlen, by shift and mask. */
  function Ideal(n: nat, l: nat): nat { Shifted(n, Pow2(l)) + if And(n, Mask(l)) != 0 then 1 else 0 }

  function Shifted(n: nat, d: nat): (q: nat)
    requires d > 0
    ensures n == q * d + n % d && n % d < d
  {
    n / d
  }

  lemma IdealIsCeiling(n: nat, l: nat)
    ensures IsCeiling(Ideal(n, l), n, Pow2(l))
  {
    MaskIsMod(n, l);
    CeilingOf(n, Pow2(l), Shifted(n, Pow2(l)), n % Pow2(l));
  }

  lemma StatisticsStep(buckets: seq<Bucket>, ideal: nat, nonideal: nat, b: nat, k: Bucket)
    requires Statistics(buckets, ideal, nonideal) && b < |buckets| && k.count == buckets[b].count + 1 && MultOk(k, ideal)
    ensures Statistics(buckets[b := k], ideal, if k.count > ideal then nonideal + 1 else nonideal)
  {
    ExcessUpdate(buckets, ideal, b, k);
  }

  // ---------- Moving one item, one chain, all chains ----------

  function Items(s: seq<Id>): set<Id> { set x | x in s }

  lemma MoveChained(hh: Links, hashv: map<Id, nat>, buckets: seq<Bucket>, chains: seq<seq<Id>>, done: set<Id>, x: Id, b: nat, k: Bucket)
    requires Chained(hh, hashv, buckets, chains, done) && x in hashv && x !in done
    requires b == Slot(hashv, x, |buckets|) && k == Bucket(Some(x), buckets[b].count + 1, k.mult)
    ensures Chained(PushFront(hh, buckets[b].head, x), hashv, buckets[b := k], chains[b := [x] + chains[b]], done + {x})
  {
    ChainedAdd(hh, hashv, buckets, chains, done, x, k.mult);
    assert AddTo(buckets, b, x, k.mult) == buckets[b := k];
  }

  /** The bucket after one more item. */
  function Grown(k: Bucket, x: Id, ideal: nat): (g: Bucket)
    requires ideal > 0
    ensures MultOk(k, ideal) ==> MultOk(g, ideal)
  {
    Bucket(Some(x), k.count + 1, if k.count + 1 > ideal then (k.count + 1) / ideal else k.mult)
  }

  method MoveOne(hh: Links, hashv: map<Id, nat>, buckets: seq<Bucket>, l: nat, ideal: nat, nonideal: nat, x: Id,
                 ghost chains: seq<seq<Id>>, ghost done: set<Id>)
    returns (hh2: Links, buckets2: seq<Bucket>, nonideal2: nat, ghost chains2: seq<seq<Id>>)
    requires Chained(hh, hashv, buckets, chains, done) && |buckets| == Pow2(l)
    requires ideal > 0 && Statistics(buckets, ideal, nonideal) && x in hashv && x !in done
    ensures Chained(hh2, hashv, buckets2, chains2, done + {x}) && |buckets2| == |buckets|
    ensures Statistics(buckets2, ideal, nonideal2)
    ensures exists head :: hh2 == PushFront(hh, head, x)
  {
    MaskIsMod(hashv[x], l);
    var b := And(hashv[x], Mask(l));
    ghost var before := buckets[b];
    assert MultOk(before, ideal);
    var k := Grown(buckets[b], x, ideal);
    nonideal2 := if k.count > ideal then nonideal + 1 else nonideal;
    StatisticsStep(buckets, ideal, nonideal, b, k);
    MoveChained(hh, hashv, buckets, chains, done, x, b, k);
    hh2, buckets2, chains2 := PushFront(hh, buckets[b].head, x), buckets[b := k], chains[b := [x] + chains[b]];
  }

  /** The chains still to be moved can be followed, and none of their items has been moved. */
  ghost predicate Waiting(hh: Links, hashv: map<Id, nat>, chains: seq<seq<Id>>, done: set<Id>, from: nat) {
    forall c :: from <= c < |chains| ==> Follows(hh, hashv, chains, c, done)
  }

  ghost predicate Follows(hh: Links, hashv: map<Id, nat>, chains: seq<seq<Id>>, c: nat, done: set<Id>)
    requires c < |chains|
  {
    Forward(hh, chains[c]) && forall x :: x in chains[c] ==> x in hashv && x !in done
  }

  lemma WaitingStep(hh: Links, hashv: map<Id, nat>, chains: seq<seq<Id>>, done: set<Id>, from: nat, head: Option<Id>, x: Id)
    requires Waiting(hh, hashv, chains, done, from) && forall c :: from <= c < |chains| ==> x !in chains[c]
    ensures Waiting(PushFront(hh, head, x), hashv, chains, done + {x}, from)
  {
    forall c | from <= c < |chains| ensures Follows(PushFront(hh, head, x), hashv, chains, c, done + {x}) {
      assert Follows(hh, hashv, chains, c, done);
      PushFrontForward(hh, head, x, chains[c]);
    }
  }

  lemma ForwardTail(l: Links, s: seq<Id>)
    requires Forward(l, s) && s != []
    ensures s[0] in l.next && l.next[s[0]] == At(s[1..], 0) && Forward(l, s[1..]) && s[0] !in s[1..]
  {
    assert NextOk(l, s, 0);
    forall i | 0 <= i < |s[1..]| ensures NextOk(l, s[1..], i) { assert NextOk(l, s, i + 1); }
  }

  /** What the move of a chain keeps: the items moved so far, and the chains still waiting. */
  ghost predicate Moving(hh: Links, hashv: map<Id, nat>, buckets: seq<Bucket>, chains: seq<seq<Id>>, done: set<Id>,
                         olds: seq<seq<Id>>, from: nat)
  {
    Chained(hh, hashv, buckets, chains, done) && Waiting(hh, hashv, olds, done, from)
  }

  /** One old chain from its head on; the next field is read before the item is pushed elsewhere. */
  method MoveChain(hh: Links, hashv: map<Id, nat>, buckets: seq<Bucket>, l: nat, ideal: nat, nonideal: nat, first: Option<Id>,
                   ghost chains: seq<seq<Id>>, ghost done: set<Id>, ghost chain: seq<Id>, ghost olds: seq<seq<Id>>, ghost from: nat)
    returns (hh2: Links, buckets2: seq<Bucket>, nonideal2: nat, ghost chains2: seq<seq<Id>>)
    requires Moving(hh, hashv, buckets, chains, done, olds, from) && |buckets| == Pow2(l)
    requires ideal > 0 && Statistics(buckets, ideal, nonideal)
    requires first == At(chain, 0) && Follows(hh, hashv, [chain], 0, done)
    requires forall c, x | from <= c < |olds| && x in olds[c] :: x !in chain
    ensures Moving(hh2, hashv, buckets2, chains2, done + Items(chain), olds, from) && |buckets2| == |buckets|
    ensures Statistics(buckets2, ideal, nonideal2)
  {
    hh2, buckets2, nonideal2, chains2 := hh, buckets, nonideal, chains;
    var thh := first;
    ghost var rest, moved := chain, done;
    while thh.Some?
      invariant thh == At(rest, 0) && Follows(hh2, hashv, [rest], 0, moved)
      invariant forall x :: x in rest ==> x in chain
      invariant moved + Items(rest) == done + Items(chain)
      invariant Moving(hh2, hashv, buckets2, chains2, moved, olds, from) && |buckets2| == |buckets|
      invariant Statistics(buckets2, ideal, nonideal2)
      decreases |rest|
    {
      var x := thh.value;
      ForwardTail(hh2, rest);
      var next := hh2.next[x];
      hh2, buckets2, nonideal2, chains2 := MoveStep(hh2, hashv, buckets2, l, ideal, nonideal2, x, chains2, moved, rest, olds, from);
      moved, rest := moved + {x}, rest[1..];
      thh := next;
    }
  }

  method MoveStep(hh: Links, hashv: map<Id, nat>, buckets: seq<Bucket>, l: nat, ideal: nat, nonideal: nat, x: Id,
                  ghost chains: seq<seq<Id>>, ghost done: set<Id>, ghost rest: seq<Id>, ghost olds: seq<seq<Id>>, ghost from: nat)
    returns (hh2: Links, buckets2: seq<Bucket>, nonideal2: nat, ghost chains2: seq<seq<Id>>)
    requires Moving(hh, hashv, buckets, chains, done, olds, from) && |buckets| == Pow2(l)
    requires ideal > 0 && Statistics(buckets, ideal, nonideal)
    requires rest != [] && x == rest[0] && Follows(hh, hashv, [rest], 0, done)
    requires forall c, y | from <= c < |olds| && y in olds[c] :: y !in rest
    ensures Moving(hh2, hashv, buckets2, chains2, done + {x}, olds, from) && |buckets2| == |buckets|
    ensures Statistics(buckets2, ideal, nonideal2)
    ensures Follows(hh2, hashv, [rest[1..]], 0, done + {x})
  {
    ForwardTail(hh, rest);
    hh2, buckets2, nonideal2, chains2 := MoveOne(hh, hashv, buckets, l, ideal, nonideal, x, chains, done);
    ghost var head :| hh2 == PushFront(hh, head, x);
    assert x in rest;
    WaitingStep(hh, hashv, olds, done, from, head, x);
    PushFrontForward(hh, head, x, rest[1..]);
  }

  // ---------- The whole expansion ----------

  function NoBuckets(n: nat): (r: seq<Bucket>)
    ensures |r| == n && forall b :: 0 <= b < n ==> r[b] == Bucket(None, 0, 0)
  {
    seq(n, _ => Bucket(None, 0, 0))
  }

  function NoChains(n: nat): (r: seq<seq<Id>>)
    ensures |r| == n && forall b :: 0 <= b < n ==> r[b] == []
  {
    seq(n, _ => [])
  }

  lemma {:induction false} TotalZero(cs: seq<seq<Id>>)
    requires forall b :: 0 <= b < |cs| ==> cs[b] == []
    ensures Total(cs) == 0
    decreases |cs|
  {
    if cs != [] { TotalZero(cs[..|cs| - 1]); }
  }

  lemma {:induction false} ExcessZero(bs: seq<Bucket>, ideal: nat)
    requires forall b :: 0 <= b < |bs| ==> bs[b].count == 0
    ensures Excess(bs, ideal) == 0
    decreases |bs|
  {
    if bs != [] { ExcessZero(bs[..|bs| - 1], ideal); }
  }

  /** Fresh buckets are empty chains. */
  lemma EmptyChained(hh: Links, hashv: map<Id, nat>, n: nat, ideal: nat)
    requires n > 0 && ideal > 0
    ensures Chained(hh, hashv, NoBuckets(n), NoChains(n), {})
    ensures Statistics(NoBuckets(n), ideal, 0)
  {
    var bs, cs := NoBuckets(n), NoChains(n);
    TotalZero(cs);
    ExcessZero(bs, ideal);
    forall b | 0 <= b < n ensures MultOk(bs[b], ideal) { }
    forall b | 0 <= b < n ensures ChainOk(hh, bs, cs, b) { }
  }

  /** The items of the first chains. */
  function FirstItems(chains: seq<seq<Id>>, n: nat): set<Id>
    requires n <= |chains|
  {
    if n == 0 then {} else FirstItems(chains, n - 1) + Items(chains[n - 1])
  }

  lemma {:induction false} FirstItemsIn(chains: seq<seq<Id>>, n: nat)
    requires n <= |chains|
    ensures forall x :: x in FirstItems(chains, n) <==> exists c :: 0 <= c < n && x in chains[c]
    decreases n
  {
    if n > 0 { FirstItemsIn(chains, n - 1); }
  }

  lemma ExpandStart(hh: Links, hashv: map<Id, nat>, buckets: seq<Bucket>, chains: seq<seq<Id>>, items: set<Id>)
    requires Chained(hh, hashv, buckets, chains, items)
    ensures Waiting(hh, hashv, chains, {}, 0) && FirstItems(chains, |chains|) == items
  {
    forall c | 0 <= c < |chains| ensures Follows(hh, hashv, chains, c, {}) { assert ChainOk(hh, buckets, chains, c); }
    FirstItemsIn(chains, |chains|);
  }

  /** Between two old chains: the next one starts at its bucket's head and shares nothing with the later ones. */
  lemma NextChain(hh0: Links, hh: Links, hashv: map<Id, nat>, buckets: seq<Bucket>, chains: seq<seq<Id>>, items: set<Id>, done: set<Id>, b: nat)
    requires Chained(hh0, hashv, buckets, chains, items) && b < |chains| && Waiting(hh, hashv, chains, done, b)
    ensures buckets[b].head == At(chains[b], 0) && Follows(hh, hashv, [chains[b]], 0, done)
    ensures Waiting(hh, hashv, chains, done, b + 1)
    ensures forall c, x | b + 1 <= c < |chains| && x in chains[c] :: x !in chains[b]
  {
    assert ChainOk(hh0, buckets, chains, b);
    assert Follows(hh, hashv, chains, b, done);
    forall c, x | b + 1 <= c < |chains| && x in chains[c] ensures x !in chains[b] {
      ChainsApart(hh0, hashv, buckets, chains, items, c, b);
    }
  }

  method MoveNext(hh0: Links, hh: Links, hashv: map<Id, nat>, prior: seq<Bucket>, b: nat, buckets: seq<Bucket>, l: nat, ideal: nat, nonideal: nat,
                  ghost chains: seq<seq<Id>>, ghost olds: seq<seq<Id>>, ghost items: set<Id>)
    returns (hh2: Links, buckets2: seq<Bucket>, nonideal2: nat, ghost chains2: seq<seq<Id>>)
    requires Chained(hh0, hashv, prior, olds, items) && b < |prior|
    requires Moving(hh, hashv, buckets, chains, FirstItems(olds, b), olds, b) && |buckets| == Pow2(l)
    requires ideal > 0 && Statistics(buckets, ideal, nonideal)
    ensures Moving(hh2, hashv, buckets2, chains2, FirstItems(olds, b + 1), olds, b + 1) && |buckets2| == |buckets|
    ensures Statistics(buckets2, ideal, nonideal2)
  {
    NextChain(hh0, hh, hashv, prior, olds, items, FirstItems(olds, b), b);
    hh2, buckets2, nonideal2, chains2 := MoveChain(hh, hashv, buckets, l, ideal, nonideal, prior[b].head,
      chains, FirstItems(olds, b), olds[b], olds, b + 1);
  }

  method MoveAll(hh: Links, hashv: map<Id, nat>, buckets: seq<Bucket>, l: nat, ideal: nat,
                 ghost chains: seq<seq<Id>>, ghost items: set<Id>)
    returns (hh2: Links, buckets2: seq<Bucket>, nonideal: nat, ghost chains2: seq<seq<Id>>)
    requires Chained(hh, hashv, buckets, chains, items) && ideal > 0 && 2 * |buckets| == Pow2(l)
    ensures Chained(hh2, hashv, buckets2, chains2, items) && |buckets2| == Pow2(l) && Statistics(buckets2, ideal, nonideal)
  {
    nonideal := 0;
    hh2, buckets2 := hh, NoBuckets(2 * |buckets|);
    chains2 := NoChains(2 * |buckets|);
    EmptyChained(hh, hashv, 2 * |buckets|, ideal);
    ExpandStart(hh, hashv, buckets, chains, items);
    for b := 0 to |buckets|
      invariant Moving(hh2, hashv, buckets2, chains2, FirstItems(chains, b), chains, b)
      invariant |buckets2| == Pow2(l) && Statistics(buckets2, ideal, nonideal)
    {
      hh2, buckets2, nonideal, chains2 := MoveNext(hh, hh2, hashv, buckets, b, buckets2, l, ideal, nonideal, chains2, chains, items);
    }
  }

  lemma CeilingPositive(c: nat, n: nat, d: nat)
    requires IsCeiling(c, n, d) && n > 0
    ensures c > 0
  {
  }

  /** HASH_EXPAND_BUCKETS: twice the buckets, the same items, each once in its new bucket. */
  method Expand(hh: Links, hashv: map<Id, nat>, buckets: seq<Bucket>, l: nat, numItems: nat,
                ghost chains: seq<seq<Id>>, ghost items: set<Id>)
    returns (hh2: Links, buckets2: seq<Bucket>, ideal: nat, nonideal: nat, ghost chains2: seq<seq<Id>>)
    requires Chained(hh, hashv, buckets, chains, items) && |buckets| == Pow2(l) && numItems == |items| > 0
    ensures Chained(hh2, hashv, buckets2, chains2, items) && |buckets2| == Pow2(l + 1)
    ensures IsCeiling(ideal, numItems, |buckets2|) && Statistics(buckets2, ideal, nonideal)
  {
    ideal := Ideal(numItems, l + 1);
    IdealIsCeiling(numItems, l + 1);
    CeilingPositive(ideal, numItems, Pow2(l + 1));
    hh2, buckets2, nonideal, chains2 := MoveAll(hh, hashv, buckets, l + 1, ideal, chains, items);
  }
}
