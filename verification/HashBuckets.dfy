/** The bucket chains of the hash table. */
module HashBuckets {
  import opened Common
  import opened Bits
  import opened LinkedLists

  datatype Bucket = Bucket(head: Option<Id>, count: nat, mult: nat)

  // ---------- The bucket of a hash value ----------

  function And(a: nat, b: nat): nat
    decreases a + b
  {
    if a == 0 || b == 0 then 0 else 2 * And(a / 2, b / 2) + (a % 2) * (b % 2)
  }

  lemma HalfMod(h: nat, p: nat)
    requires p > 0
    ensures h % (2 * p) == 2 * ((h / 2) % p) + h % 2
  {
    var q, r := (h / 2) / p, (h / 2) % p;
    assert h / 2 == q * p + r;
    var s := 2 * r + h % 2;
    assert h == q * (2 * p) + s;
    Remainder(h, 2 * p, q, s);
  }

  lemma Remainder(x: nat, d: nat, q: nat, r: nat)
    requires d > 0 && x == q * d + r && r < d
    ensures x % d == r
  {
    var y := x / d;
    assert x == y * d + x % d;
    if y < q { RowsApart(d, y, q); }
    if q < y { RowsApart(d, q, y); }
  }

  /** The mask keeps the remainder by the number of buckets. */
  lemma {:induction false} MaskIsMod(h: nat, l: nat)
    ensures And(h, Pow2(l) - 1) == h % Pow2(l)
    decreases l
  {
    if l > 0 {
      var p := Pow2(l - 1);
      HalfMod(h, p);
      MaskIsMod(h / 2, l - 1);
      assert (Pow2(l) - 1) / 2 == p - 1 && (Pow2(l) - 1) % 2 == 1;
    }
  }

  // ---------- Counting ----------

  function Total(chains: seq<seq<Id>>): nat {
    if chains == [] then 0 else Total(chains[..|chains| - 1]) + |chains[|chains| - 1]|
  }

  lemma {:induction false} TotalUpdate(chains: seq<seq<Id>>, b: nat, c: seq<Id>)
    requires b < |chains|
    ensures Total(chains[b := c]) == Total(chains) - |chains[b]| + |c|
    decreases |chains|
  {
    var n := |chains| - 1;
    if b < n {
      assert chains[b := c][..n] == chains[..n][b := c];
      TotalUpdate(chains[..n], b, c);
    } else {
      assert chains[b := c][..n] == chains[..n];
    }
  }

  // ---------- The invariant of the chains ----------

  predicate ChainOk(hh: Links, buckets: seq<Bucket>, chains: seq<seq<Id>>, b: int) {
    && 0 <= b < |buckets| == |chains|
    && IsList(hh, chains[b])
    && buckets[b].head == At(chains[b], 0)
    && buckets[b].count == |chains[b]|
  }

  function Slot(hashv: map<Id, nat>, x: Id, n: nat): nat
    requires x in hashv && n > 0
  {
    hashv[x] % n
  }

  /** Every item sits once, in the chain of its bucket, and the counts add up to the number of items. */
  ghost predicate Chained(hh: Links, hashv: map<Id, nat>, buckets: seq<Bucket>, chains: seq<seq<Id>>, items: set<Id>) {
    && |buckets| == |chains| > 0
    && (forall b :: 0 <= b < |chains| ==> ChainOk(hh, buckets, chains, b))
    && (forall b, x | 0 <= b < |chains| && x in chains[b] :: x in items && x in hashv && Slot(hashv, x, |buckets|) == b)
    && (forall x :: x in items ==> x in hashv && x in chains[Slot(hashv, x, |buckets|)])
    && Total(chains) == |items|
  }

  /** Different chains have no item in common. */
  lemma ChainsApart(hh: Links, hashv: map<Id, nat>, buckets: seq<Bucket>, chains: seq<seq<Id>>, items: set<Id>, b: nat, c: nat)
    requires Chained(hh, hashv, buckets, chains, items) && b < |chains| && c < |chains| && b != c
    ensures forall x :: x in chains[b] ==> x !in chains[c]
  {
    forall x | x in chains[b] ensures x !in chains[c] { assert Slot(hashv, x, |buckets|) == b; }
  }

  function AddTo(buckets: seq<Bucket>, b: nat, x: Id, mult: nat): seq<Bucket>
    requires b < |buckets|
  {
    buckets[b := Bucket(Some(x), buckets[b].count + 1, mult)]
  }

  lemma ChainsAfterAdd(hh: Links, hashv: map<Id, nat>, buckets: seq<Bucket>, chains: seq<seq<Id>>, items: set<Id>, x: Id, mult: nat, b: nat, c: nat)
    requires Chained(hh, hashv, buckets, chains, items) && x !in items && b < |chains| && c < |chains|
    ensures ChainOk(PushFront(hh, buckets[b].head, x), AddTo(buckets, b, x, mult), chains[b := [x] + chains[b]], c)
  {
    assert ChainOk(hh, buckets, chains, b) && ChainOk(hh, buckets, chains, c);
    if c == b {
      PushFrontIsList(hh, chains[b], x);
    } else {
      ChainsApart(hh, hashv, buckets, chains, items, b, c);
      assert |chains[b]| > 0 ==> chains[b][0] in chains[b];
      PushFrontFrame(hh, buckets[b].head, x, chains[c]);
    }
  }

  /** HASH_ADD_TO_BKT. */
  lemma ChainedAdd(hh: Links, hashv: map<Id, nat>, buckets: seq<Bucket>, chains: seq<seq<Id>>, items: set<Id>, x: Id, mult: nat)
    requires Chained(hh, hashv, buckets, chains, items) && x !in items && x in hashv
    ensures var b := Slot(hashv, x, |buckets|);
      Chained(PushFront(hh, buckets[b].head, x), hashv, AddTo(buckets, b, x, mult), chains[b := [x] + chains[b]], items + {x})
  {
    var b := Slot(hashv, x, |buckets|);
    var hh2, bs, cs := PushFront(hh, buckets[b].head, x), AddTo(buckets, b, x, mult), chains[b := [x] + chains[b]];
    TotalUpdate(chains, b, [x] + chains[b]);
    forall c | 0 <= c < |cs| ensures ChainOk(hh2, bs, cs, c) {
      ChainsAfterAdd(hh, hashv, buckets, chains, items, x, mult, b, c);
    }
  }

  /** HASH_DEL_IN_BKT: what is left of a bucket. */
  function DelFrom(hh: Links, buckets: seq<Bucket>, b: nat, x: Id): seq<Bucket>
    requires b < |buckets| && x in hh.next && buckets[b].count > 0
  {
    var bk := buckets[b];
    buckets[b := bk.(count := bk.count - 1, head := if bk.head == Some(x) then hh.next[x] else bk.head)]
  }

  lemma ChainsAfterDel(hh: Links, hashv: map<Id, nat>, buckets: seq<Bucket>, chains: seq<seq<Id>>, items: set<Id>, b: nat, k: nat, c: nat)
    requires Chained(hh, hashv, buckets, chains, items) && b < |chains| && c < |chains| && k < |chains[b]|
    ensures var x := chains[b][k];
      && x in hh.next && x in hh.prev && buckets[b].count > 0
      && ChainOk(Unlink(hh, x), DelFrom(hh, buckets, b, x), chains[b := Without(chains[b], k)], c)
  {
    assert ChainOk(hh, buckets, chains, b) && ChainOk(hh, buckets, chains, c);
    assert NextOk(hh, chains[b], k) && PrevOk(hh, chains[b], k);
    if c == b {
      UnlinkIsList(hh, chains[b], k);
    } else {
      ChainsApart(hh, hashv, buckets, chains, items, b, c);
      UnlinkFrame(hh, chains[b], k, chains[c]);
    }
  }

  lemma ChainedDel(hh: Links, hashv: map<Id, nat>, buckets: seq<Bucket>, chains: seq<seq<Id>>, items: set<Id>, x: Id, k: nat)
    requires Chained(hh, hashv, buckets, chains, items) && x in items
    requires k < |chains[Slot(hashv, x, |buckets|)]| && chains[Slot(hashv, x, |buckets|)][k] == x
    ensures var b := Slot(hashv, x, |buckets|);
      && x in hh.next && x in hh.prev && buckets[b].count > 0
      && Chained(Unlink(hh, x), hashv, DelFrom(hh, buckets, b, x), chains[b := Without(chains[b], k)], items - {x})
  {
    var b := Slot(hashv, x, |buckets|);
    ChainsAfterDel(hh, hashv, buckets, chains, items, b, k, b);
    assert ChainOk(hh, buckets, chains, b);
    WithoutMembers(chains[b], k);
    TotalUpdate(chains, b, Without(chains[b], k));
    var hh2, bs, cs := Unlink(hh, x), DelFrom(hh, buckets, b, x), chains[b := Without(chains[b], k)];
    forall c | 0 <= c < |cs| ensures ChainOk(hh2, bs, cs, c) {
      ChainsAfterDel(hh, hashv, buckets, chains, items, b, k, c);
    }
  }
}
