/** The CPU booster's packet buffer for one block of a traffic class, around the block coder. */
module FecBooster {
  import opened Bits
  import opened Algebra
  import opened Elimination
  import opened ErasureCode
  import opened RseBlock
  import opened RseRecovery
  import opened RseRoundTrip
  import opened RseCoder

  datatype Status = Absent | Present | Recovered

  /** The part of tclass_buffer that belongs to one block: packet memory, stored sizes, statuses. */
  datatype Buffer = Buffer(pkts: seq<seq<nat>>, size: seq<nat>, status: seq<Status>)

  /** A data frame as it is stored: its size in network byte order, then its bytes. */
  function Stored(frame: seq<nat>): seq<nat> { [(|frame| / 256) % 256, |frame| % 256] + frame }

  /** retrieve_from_pkt_buffer at a data index: the size found in the buffer. */
  function RetrievedSize(memory: seq<nat>): nat
    requires |memory| >= 2
  {
    memory[0] * 256 + memory[1]
  }

  /** What is stored can be retrieved, whatever follows it in memory. */
  lemma StoredRetrieved(memory: seq<nat>, frame: seq<nat>)
    requires |frame| < 65536 && Stored(frame) <= memory
    ensures RetrievedSize(memory) == |frame| && memory[2..2 + |frame|] == frame
  {
    var s := Stored(frame);
    assert memory[..|s|] == s;
    assert memory[0] == s[0] && memory[1] == s[1];
    assert forall i :: 0 <= i < |frame| ==> memory[2 + i] == s[2 + i] == frame[i];
  }

  function Place(memory: seq<nat>, bytes: seq<nat>): (r: seq<nat>)
    requires |bytes| <= |memory|
    ensures |r| == |memory| && bytes <= r
  {
    bytes + memory[|bytes|..]
  }

  predicate BufferOk(p: Params, k: nat, h: nat, buf: Buffer) {
    && p.h <= p.n && |buf.pkts| == |buf.size| == |buf.status| && k + h <= |buf.pkts|
    && forall i :: 0 <= i < |buf.pkts| ==> |buf.pkts[i]| == p.cols
  }

  /** insert_into_pkt_buffer: data frames get their size in front, parity frames are stored as they are. */
  method Insert(p: Params, k: nat, h: nat, buf: Buffer, index: nat, frame: seq<nat>) returns (r: Buffer)
    requires BufferOk(p, k, h, buf) && index < k + h && |frame| + 2 <= p.cols
    ensures BufferOk(p, k, h, r) && |r.pkts| == |buf.pkts|
    ensures var bytes := if index < k then Stored(frame) else frame;
      && bytes <= r.pkts[index] && r.size[index] == |bytes| && r.status[index] == Present
    ensures forall i :: 0 <= i < |buf.pkts| && i != index ==>
      r.pkts[i] == buf.pkts[i] && r.size[i] == buf.size[i] && r.status[i] == buf.status[i]
  {
    var bytes := frame;
    if index < k { bytes := [(|frame| / 256) % 256, |frame| % 256] + frame; }
    r := Buffer(buf.pkts[index := Place(buf.pkts[index], bytes)], buf.size[index := |bytes|], buf.status[index := Present]);
  }

  // ---------- can_decode ----------

  function CountData(buf: Buffer, s: Status, i: nat): nat
    requires i <= |buf.status|
  {
    if i == 0 then 0 else CountData(buf, s, i - 1) + if buf.status[i - 1] == s then 1 else 0
  }

  function CountFrom(buf: Buffer, s: Status, k: nat, i: nat): nat
    requires k + i <= |buf.status|
  {
    if i == 0 then 0 else CountFrom(buf, s, k, i - 1) + if buf.status[k + i - 1] == s then 1 else 0
  }

  method CanDecode(k: nat, h: nat, buf: Buffer) returns (r: bool)
    requires k + h <= |buf.status|
    ensures r == (CountData(buf, Absent, k) <= CountFrom(buf, Present, k, h))
  {
    var missing, parity := 0, 0;
    for i := 0 to k
      invariant missing == CountData(buf, Absent, i)
    {
      if buf.status[i] == Absent { missing := missing + 1; }
    }
    for i := 0 to h
      invariant parity == CountFrom(buf, Present, k, i)
    {
      if buf.status[k + i] == Present { parity := parity + 1; }
    }
    r := missing <= parity;
  }

  // ---------- populate_fec_blk ----------

  function MaxPresent(buf: Buffer, i: nat): nat
    requires i <= |buf.status| == |buf.size|
  {
    if i == 0 then 0
    else
      var m := MaxPresent(buf, i - 1);
      if buf.status[i - 1] == Present && buf.size[i - 1] > m then buf.size[i - 1] else m
  }

  /** The block width once the first i parity packets are in: a missing packet may have been the longest. */
  function Width(p: Params, buf: Buffer, k: nat, i: nat): nat
    requires k + i <= |buf.status| == |buf.size|
  {
    if i == 0 then MaxPresent(buf, k) + p.extra
    else
      var c := Width(p, buf, k, i - 1);
      if buf.status[k + i - 1] == Present && buf.size[k + i - 1] > c then buf.size[k + i - 1] else c
  }

  ghost predicate DataSlot(buf: Buffer, b: Block, i: nat)
    requires i < |buf.pkts| == |buf.size| == |buf.status| && i < |b.cbi| == |b.plen| == |b.pstat| == |b.pdata|
  {
    && b.cbi[i] == i && b.pdata[i] == buf.pkts[i]
    && (buf.status[i] == Present ==> b.pstat[i] == Known && b.plen[i] == buf.size[i])
    && (buf.status[i] != Present ==> b.pstat[i] == Wanted)
  }

  ghost predicate ParitySlot(p: Params, buf: Buffer, b: Block, k: nat, i: nat)
    requires p.h <= p.n && k + i < |buf.pkts| == |buf.size| == |buf.status|
    requires k + i < |b.cbi| == |b.plen| == |b.pstat| == |b.pdata|
  {
    && b.cbi[k + i] == p.n - i - 1
    && (buf.status[k + i] == Present ==>
          b.pstat[k + i] == Known && b.pdata[k + i] == buf.pkts[k + i] && b.plen[k + i] == buf.size[k + i])
    && (buf.status[k + i] != Present ==> b.pstat[k + i] == Ignore)
  }

  ghost predicate SameSizes(b: Block, b': Block) {
    |b'.cbi| == |b.cbi| && |b'.plen| == |b.plen| && |b'.pstat| == |b.pstat| && |b'.pdata| == |b.pdata|
  }

  ghost predicate Populated(p: Params, k: nat, h: nat, buf: Buffer, b: Block)
    requires BufferOk(p, k, h, buf)
  {
    && b.n == k + h <= |b.cbi| == |b.plen| == |b.pstat| == |b.pdata| && b.c == Width(p, buf, k, h)
    && (forall i :: 0 <= i < k ==> DataSlot(buf, b, i)) && (forall i :: 0 <= i < h ==> ParitySlot(p, buf, b, k, i))
  }

  /** populate_fec_blk with the parity expected in the buffer (offset o = 0). */
  method Populate(p: Params, k: nat, h: nat, buf: Buffer, b: Block) returns (r: Block, ok: bool)
    requires BufferOk(p, k, h, buf) && k + h <= |b.cbi| == |b.plen| == |b.pstat| == |b.pdata|
    ensures SameSizes(b, r) && ok == (k <= p.K() && h <= p.h)
    ensures ok ==> Populated(p, k, h, buf, r)
    ensures ok ==> forall i :: 0 <= i < |b.pdata| ==> r.pdata[i] == b.pdata[i] || (i < k + h && r.pdata[i] == buf.pkts[i])
  {
    r, ok := b.(n := k + h), false;
    if k > p.K() { return; }
    var max := 0;
    for i := 0 to k
      invariant SameSizes(b, r) && r.n == k + h && max == MaxPresent(buf, i)
      invariant forall j :: 0 <= j < i ==> DataSlot(buf, r, j)
      invariant forall j :: 0 <= j < |b.pdata| ==> r.pdata[j] == b.pdata[j] || (j < k && r.pdata[j] == buf.pkts[j])
    {
      ghost var q := r;
      r := r.(pdata := r.pdata[i := buf.pkts[i]], cbi := r.cbi[i := i]);
      if buf.status[i] == Present {
        r := r.(pstat := r.pstat[i := Known], plen := r.plen[i := buf.size[i]]);
        if buf.size[i] > max { max := buf.size[i]; }
      } else {
        r := r.(pstat := r.pstat[i := Wanted]);
      }
      forall j | 0 <= j < i ensures DataSlot(buf, r, j) { assert DataSlot(buf, q, j); }
    }
    ghost var q := r;
    r := r.(c := max + p.extra);
    forall j | 0 <= j < k ensures DataSlot(buf, r, j) { assert DataSlot(buf, q, j); }
    if h > p.h { return; }
    r := PopulateParity(p, k, h, buf, r);
    ok := true;
  }

  method PopulateParity(p: Params, k: nat, h: nat, buf: Buffer, b: Block) returns (r: Block)
    requires BufferOk(p, k, h, buf) && k <= p.K() && h <= p.h
    requires k + h <= |b.cbi| == |b.plen| == |b.pstat| == |b.pdata| && b.n == k + h && b.c == Width(p, buf, k, 0)
    requires forall i :: 0 <= i < k ==> DataSlot(buf, b, i)
    ensures SameSizes(b, r) && Populated(p, k, h, buf, r)
    ensures forall i :: 0 <= i < |b.pdata| ==> r.pdata[i] == b.pdata[i] || (i < k + h && r.pdata[i] == buf.pkts[i])
  {
    r := b;
    for i := 0 to h
      invariant SameSizes(b, r) && r.n == k + h && r.c == Width(p, buf, k, i)
      invariant forall j :: 0 <= j < k ==> DataSlot(buf, r, j)
      invariant forall j :: 0 <= j < i ==> ParitySlot(p, buf, r, k, j)
      invariant forall j :: 0 <= j < |b.pdata| ==> r.pdata[j] == b.pdata[j] || (j < k + h && r.pdata[j] == buf.pkts[j])
    {
      var y := k + i;
      ghost var q := r;
      r := r.(cbi := r.cbi[y := p.n - i - 1]);
      if buf.status[y] == Present {
        r := r.(pdata := r.pdata[y := buf.pkts[y]], pstat := r.pstat[y := Known], plen := r.plen[y := buf.size[y]]);
        if buf.size[y] > r.c { r := r.(c := buf.size[y]); }
      } else {
        r := r.(pstat := r.pstat[y := Ignore]);
      }
      forall j | 0 <= j < k ensures DataSlot(buf, r, j) { assert DataSlot(buf, q, j); }
      forall j | 0 <= j < i ensures ParitySlot(p, buf, r, k, j) { assert ParitySlot(p, buf, q, k, j); }
    }
  }

  // ---------- What a decodable buffer holds ----------

  function StoredAll(frames: seq<seq<nat>>): seq<seq<nat>> {
    seq(|frames|, i requires 0 <= i < |frames| => Stored(frames[i]))
  }

  /** Received data slots hold the frames, received parity slots the parity symbols of the encoded block. */
  ghost predicate Received(f: Field, p: Params, w: Matrix, k: nat, h: nat, buf: Buffer, frames: seq<seq<nat>>, cols: nat)
    requires BufferOk(p, k, h, buf) && Shaped(w, p.n)
  {
    && k == |frames| <= p.K() && h <= p.h && 0 < cols <= p.cols
    && (forall i :: 0 <= i < k ==> |frames[i]| < 65536 && |Stored(frames[i])| + p.extra <= cols)
    && (forall i :: 0 <= i < k && buf.status[i] == Present ==>
          Stored(frames[i]) <= buf.pkts[i] && buf.size[i] == |Stored(frames[i])|)
    && (forall j :: k <= j < k + h && buf.status[j] == Present ==>
          buf.size[j] == cols && HoldsParity(f, p, w, buf.pkts[j], frames, cols, p.n - (j - k) - 1))
  }

  /** The memory holds the symbols of one codeword column. */
  ghost predicate HoldsParity(f: Field, p: Params, w: Matrix, memory: seq<nat>, frames: seq<seq<nat>>, cols: nat, col: nat)
    requires Shaped(w, p.n) && cols <= |memory| && col < p.n
  {
    forall c :: 0 <= c < cols ==> memory[c] == Word(f, p, w, StoredAll(frames), cols, c)[col]
  }

  lemma {:induction false} MaxPresentBound(buf: Buffer, i: nat, m: nat)
    requires i <= |buf.status| == |buf.size| && forall j :: 0 <= j < i && buf.status[j] == Present ==> buf.size[j] <= m
    ensures MaxPresent(buf, i) <= m
  {
    if i != 0 { MaxPresentBound(buf, i - 1, m); }
  }

  /** One received parity packet fixes the width of the block, even if the longest frame is missing. */
  lemma {:induction false} WidthExact(p: Params, buf: Buffer, k: nat, i: nat, cols: nat)
    requires k + i <= |buf.status| == |buf.size| && MaxPresent(buf, k) + p.extra <= cols
    requires forall j :: k <= j < k + i && buf.status[j] == Present ==> buf.size[j] == cols
    ensures Width(p, buf, k, i) <= cols
    ensures CountFrom(buf, Present, k, i) > 0 ==> Width(p, buf, k, i) == cols
  {
    if i != 0 { WidthExact(p, buf, k, i - 1, cols); }
  }

  /** Exactly the missing data packets are wanted. */
  lemma WantedSlot(p: Params, k: nat, h: nat, buf: Buffer, b: Block, i: nat)
    requires BufferOk(p, k, h, buf) && Populated(p, k, h, buf, b) && i < k + h && (i < k ==> buf.status[i] != Recovered)
    ensures IsKind(p, b, Want, i) <==> i < k && buf.status[i] == Absent
  {
    if i < k { assert DataSlot(buf, b, i); } else { assert ParitySlot(p, buf, b, k, i - k); }
  }

  /** Exactly the parity packets that are present count as parity. */
  lemma ParityKnown(p: Params, k: nat, h: nat, buf: Buffer, b: Block, i: nat)
    requires BufferOk(p, k, h, buf) && Populated(p, k, h, buf, b) && k <= p.K() && h <= p.h && i < k + h
    ensures IsKind(p, b, Pari, i) <==> i >= k && buf.status[i] == Present
  {
    if i < k { assert DataSlot(buf, b, i); } else { assert ParitySlot(p, buf, b, k, i - k); }
  }

  lemma {:induction false} WantCount(p: Params, k: nat, h: nat, buf: Buffer, b: Block, i: nat)
    requires BufferOk(p, k, h, buf) && Populated(p, k, h, buf, b) && i <= k + h
    requires forall j :: 0 <= j < k ==> buf.status[j] != Recovered
    ensures |Find(p, b, Want, i)| == CountData(buf, Absent, if i < k then i else k)
  {
    if i != 0 {
      WantCount(p, k, h, buf, b, i - 1);
      WantedSlot(p, k, h, buf, b, i - 1);
      FindNext(p, b, Want, i - 1);
    }
  }

  lemma {:induction false} PariCount(p: Params, k: nat, h: nat, buf: Buffer, b: Block, i: nat)
    requires BufferOk(p, k, h, buf) && Populated(p, k, h, buf, b) && k <= p.K() && h <= p.h && i <= k + h
    ensures |Find(p, b, Pari, i)| == CountFrom(buf, Present, k, if i < k then 0 else i - k)
  {
    if i != 0 {
      PariCount(p, k, h, buf, b, i - 1);
      ParityKnown(p, k, h, buf, b, i - 1);
      FindNext(p, b, Pari, i - 1);
    }
  }

  lemma {:induction false} CountBound(buf: Buffer, s: Status, k: nat, i: nat)
    requires k + i <= |buf.status|
    ensures CountFrom(buf, s, k, i) <= i
  {
    if i != 0 { CountBound(buf, s, k, i - 1); }
  }

  lemma {:induction false} CountPositive(buf: Buffer, s: Status, k: nat, i: nat)
    requires k + i <= |buf.status| && CountFrom(buf, s, k, i) > 0
    ensures exists j :: k <= j < k + i && buf.status[j] == s
  {
    if buf.status[k + i - 1] != s { CountPositive(buf, s, k, i - 1); }
  }

  /** The checks of rse_code, told in the sizes of the three lists. */
  lemma Checked(p: Params, size: nat, b: Block, know: nat, want: nat, pari: nat)
    requires p.h <= p.n && b.n <= |b.cbi| == |b.pstat|
    requires know == |Find(p, b, Know, b.n)| && want == |Find(p, b, Want, b.n)| && pari == |Find(p, b, Pari, b.n)|
    requires 0 < b.n < size && 0 < b.c <= p.cols && 0 < know && 0 < want <= pari <= p.h
    ensures Check(p, size, b) == 0
  {
  }

  lemma AllWanted(p: Params, k: nat, h: nat, buf: Buffer, b: Block)
    requires BufferOk(p, k, h, buf) && Populated(p, k, h, buf, b)
    requires forall j :: 0 <= j < k ==> buf.status[j] != Recovered
    ensures |Find(p, b, Want, b.n)| == CountData(buf, Absent, k)
  {
    WantCount(p, k, h, buf, b, k + h);
  }

  lemma AllParity(p: Params, k: nat, h: nat, buf: Buffer, b: Block)
    requires BufferOk(p, k, h, buf) && Populated(p, k, h, buf, b) && k <= p.K() && h <= p.h
    ensures |Find(p, b, Pari, b.n)| == CountFrom(buf, Present, k, h) <= h
  {
    PariCount(p, k, h, buf, b, k + h);
    CountBound(buf, Present, k, h);
  }

  /** can_decode, with something missing and nothing recovered before, means that rse_code accepts the block. */
  lemma Accepted(p: Params, size: nat, k: nat, h: nat, buf: Buffer, b: Block)
    requires BufferOk(p, k, h, buf) && Populated(p, k, h, buf, b) && k <= p.K() && h <= p.h
    requires forall j :: 0 <= j < k ==> buf.status[j] != Recovered
    requires 0 < CountData(buf, Absent, k) <= CountFrom(buf, Present, k, h)
    requires k + h < size && 0 < b.c <= p.cols
    ensures Check(p, size, b) == 0
  {
    AllWanted(p, k, h, buf, b);
    AllParity(p, k, h, buf, b);
    SomethingKnown(p, k, h, buf, b);
    Checked(p, size, b, |Find(p, b, Know, b.n)|, CountData(buf, Absent, k), CountFrom(buf, Present, k, h));
  }

  lemma SomethingKnown(p: Params, k: nat, h: nat, buf: Buffer, b: Block)
    requires BufferOk(p, k, h, buf) && Populated(p, k, h, buf, b) && CountFrom(buf, Present, k, h) > 0
    ensures |Find(p, b, Know, b.n)| > 0
  {
    CountPositive(buf, Present, k, h);
    var j :| k <= j < k + h && buf.status[j] == Present;
    assert ParitySlot(p, buf, b, k, j - k);
    assert j in Find(p, b, Know, b.n);
  }

  // ---------- The populated block is one the decoder can restore ----------

  ghost predicate FramesOk(f: Field, p: Params, frames: seq<seq<nat>>) {
    && f.size == Pow2(p.bits) == 256
    && forall i :: 0 <= i < |frames| ==> |frames[i]| < 65536 && VecIn(f, frames[i], |frames[i]|)
  }

  lemma StoredOk(f: Field, p: Params, w: Matrix, k: nat, h: nat, buf: Buffer, frames: seq<seq<nat>>, cols: nat)
    requires BufferOk(p, k, h, buf) && Shaped(w, p.n) && FramesOk(f, p, frames)
    requires Received(f, p, w, k, h, buf, frames, cols) && p.extra <= cols
    ensures PacketsOk(f, p, StoredAll(frames), cols)
  {
    forall j | 0 <= j < k ensures VecIn(f, Stored(frames[j]), |Stored(frames[j])|) {
      assert Stored(frames[j])[2..] == frames[j];
    }
  }

  lemma PopulatedLayout(f: Field, p: Params, k: nat, h: nat, buf: Buffer, b: Block)
    requires BufferOk(p, k, h, buf) && Populated(p, k, h, buf, b) && k <= p.K() && h <= p.h && BlockOk(p, f, b)
    ensures Layout(f, p, b, k)
  {
    forall i | 0 <= i < k + h ensures StatusFits(p, b.pstat[i], b.cbi[i], k) && b.cbi[i] == ColumnOf(p, k, i) {
      if i < k { assert DataSlot(buf, b, i); } else { assert ParitySlot(p, buf, b, k, i - k); }
    }
    forall j | 0 <= j < k ensures HasColumn(b, j) { assert b.cbi[j] == j; }
  }

  function ColumnOf(p: Params, k: nat, i: nat): int { if i < k then i else p.n - (i - k) - 1 }

  lemma DataTrue(f: Field, p: Params, w: Matrix, k: nat, h: nat, buf: Buffer, b: Block, frames: seq<seq<nat>>, i: nat, c: nat)
    requires BufferOk(p, k, h, buf) && Shaped(w, p.n) && Populated(p, k, h, buf, b) && BlockOk(p, f, b)
    requires Received(f, p, w, k, h, buf, frames, b.c) && c < b.c <= p.cols && i < k && IsKind(p, b, Know, i)
    ensures Symbol(p, b, i, c) == DataWord(p, StoredAll(frames), b.c, c)[i] && b.cbi[i] == i
  {
    assert DataSlot(buf, b, i);
    KnownPacket(p, b, i, Stored(frames[i]), c);
  }

  lemma ParityTrue(f: Field, p: Params, w: Matrix, k: nat, h: nat, buf: Buffer, b: Block, frames: seq<seq<nat>>, i: nat, c: nat)
    requires BufferOk(p, k, h, buf) && Shaped(w, p.n) && Populated(p, k, h, buf, b) && BlockOk(p, f, b)
    requires Received(f, p, w, k, h, buf, frames, b.c) && c < b.c <= p.cols && k <= i < k + h && IsKind(p, b, Know, i)
    ensures Symbol(p, b, i, c) == Word(f, p, w, StoredAll(frames), b.c, c)[b.cbi[i]]
  {
    assert ParitySlot(p, buf, b, k, i - k);
    assert HoldsParity(f, p, w, buf.pkts[i], frames, b.c, p.n - (i - k) - 1);
  }

  lemma PopulatedTrue(f: Field, p: Params, w: Matrix, k: nat, h: nat, buf: Buffer, b: Block, frames: seq<seq<nat>>, i: nat, c: nat)
    requires IsField(f) && IsWeights(f, w, p.h, p.n) && BufferOk(p, k, h, buf) && FramesOk(f, p, frames)
    requires Received(f, p, w, k, h, buf, frames, b.c) && p.extra <= b.c <= p.cols && Populated(p, k, h, buf, b)
    requires BlockOk(p, f, b) && c < b.c && i < k + h && IsKind(p, b, Know, i)
    ensures Symbol(p, b, i, c) == Word(f, p, w, StoredAll(frames), b.c, c)[b.cbi[i]]
  {
    if i < k {
      StoredOk(f, p, w, k, h, buf, frames, b.c);
      WordIn(f, p, w, StoredAll(frames), b.c, c);
      DataTrue(f, p, w, k, h, buf, b, frames, i, c);
    } else {
      ParityTrue(f, p, w, k, h, buf, b, frames, i, c);
    }
  }

  lemma PopulatedReady(f: Field, p: Params, w: Matrix, k: nat, h: nat, buf: Buffer, b: Block, frames: seq<seq<nat>>)
    requires IsField(f) && IsWeights(f, w, p.h, p.n) && BufferOk(p, k, h, buf) && FramesOk(f, p, frames)
    requires Received(f, p, w, k, h, buf, frames, b.c) && p.extra <= b.c <= p.cols && Populated(p, k, h, buf, b)
    requires BlockOk(p, f, b)
    ensures DecodeReady(f, p, w, b, StoredAll(frames))
  {
    StoredOk(f, p, w, k, h, buf, frames, b.c);
    PopulatedLayout(f, p, k, h, buf, b);
    forall c | 0 <= c < b.c ensures TrueTo(f, p, b, Word(f, p, w, StoredAll(frames), b.c, c), c) {
      forall i | 0 <= i < b.n && IsKind(p, b, Know, i)
        ensures Symbol(p, b, i, c) == Word(f, p, w, StoredAll(frames), b.c, c)[b.cbi[i]]
      {
        PopulatedTrue(f, p, w, k, h, buf, b, frames, i, c);
      }
    }
  }

  /** A wanted slot that was written the symbols of a packet starts with the packet. */
  lemma WrittenPrefix(p: Params, b: Block, xs: seq<Vec>, packet: seq<nat>, l: nat)
    requires p.h <= p.n && b.n <= |b.cbi| == |b.pstat| && Sheet(p, b, Wants(p, b), xs) && l < |Wants(p, b)| && p.extra <= b.c
    requires |packet| <= b.c - p.extra && forall c :: 0 <= c < b.c ==> xs[c][l] == PacketSymbol(p, packet, b.c, c)
    ensures packet <= WriteAll(p, b, Wants(p, b), xs, 'd', b.c).pdata[Wants(p, b)[l]]
  {
    Written(p, b, Wants(p, b), xs, 'd', b.c, l);
  }

  /** A decoded packet starts with the stored frame, also when the coder keeps no length of its own. */
  lemma DecodedPrefix(f: Field, p: Params, w: Matrix, b: Block, packets: seq<seq<nat>>, l: nat)
    requires IsField(f) && IsWeights(f, w, p.h, p.n) && DecodeReady(f, p, w, b, packets) && Codable(p, w, b)
    requires l < |Wants(p, b)| && b.c > 0
    ensures b.cbi[Wants(p, b)[l]] < |packets|
    ensures packets[b.cbi[Wants(p, b)[l]]] <= Coded(f, p, w, b, 'd').pdata[Wants(p, b)[l]]
  {
    var xs, j := ResultSheet(f, p, w, b, 'd'), b.cbi[Wants(p, b)[l]];
    forall c | 0 <= c < b.c ensures j < |packets| && xs[c][l] == PacketSymbol(p, packets[j], b.c, c) {
      DecodedSymbol(f, p, w, b, packets, c, l);
    }
    WrittenPrefix(p, b, xs, packets[j], l);
  }

  /** After decoding, the memory of every data index starts with its stored frame. */
  lemma AllStored(f: Field, p: Params, w: Matrix, k: nat, h: nat, buf: Buffer, b: Block, frames: seq<seq<nat>>, i: nat)
    requires IsField(f) && IsWeights(f, w, p.h, p.n) && BufferOk(p, k, h, buf) && FramesOk(f, p, frames)
    requires Received(f, p, w, k, h, buf, frames, b.c) && p.extra <= b.c && Populated(p, k, h, buf, b)
    requires BlockOk(p, f, b) && Codable(p, w, b) && i < k
    ensures Stored(frames[i]) <= Coded(f, p, w, b, 'd').pdata[i]
  {
    PopulatedReady(f, p, w, k, h, buf, b, frames);
    assert DataSlot(buf, b, i);
    if b.pstat[i] == Wanted {
      assert i in Wants(p, b);
      var l :| 0 <= l < |Wants(p, b)| && Wants(p, b)[l] == i;
      DecodedPrefix(f, p, w, b, StoredAll(frames), l);
    } else {
      CodedFrame(f, p, w, b, 'd', i);
    }
  }

  // ---------- decode_block ----------

  /** Marks the data packets the coder generated. */
  method MarkRecovered(k: nat, status: seq<Status>, pstat: seq<Flag>) returns (r: seq<Status>)
    requires k <= |status| && k <= |pstat|
    ensures |r| == |status|
    ensures forall i :: 0 <= i < |status| ==> r[i] == if i < k && pstat[i] == Genned then Recovered else status[i]
  {
    r := status;
    for i := 0 to k
      invariant |r| == |status|
      invariant forall j :: 0 <= j < |status| ==> r[j] == if j < i && pstat[j] == Genned then Recovered else status[j]
    {
      if pstat[i] == Genned { r := r[i := Recovered]; }
    }
  }

  /** Populates the coder's block; packet memory holds symbols. */
  method PopulateCoder(coder: Coder, k: nat, h: nat, buf: Buffer) returns (ok: bool)
    requires coder.Valid() && BufferOk(coder.p, k, h, buf) && k + h <= |coder.fb.cbi|
    requires k <= coder.p.K() && h <= coder.p.h
    requires forall i :: 0 <= i < |buf.pkts| ==> VecIn(coder.f, buf.pkts[i], coder.p.cols)
    modifies coder`fb
    ensures ok && coder.Valid() && Populated(coder.p, k, h, buf, coder.fb)
  {
    var b;
    b, ok := Populate(coder.p, k, h, buf, coder.fb);
    assert BlockOk(coder.p, coder.f, b) by { PopulatedBlockOk(coder.f, coder.p, k, h, buf, coder.fb, b); }
    coder.fb := b;
  }

  lemma PopulatedBlockOk(f: Field, p: Params, k: nat, h: nat, buf: Buffer, b: Block, r: Block)
    requires BlockOk(p, f, b) && BufferOk(p, k, h, buf) && Populated(p, k, h, buf, r) && SameSizes(b, r)
    requires k <= p.K() && h <= p.h && forall i :: 0 <= i < |buf.pkts| ==> VecIn(f, buf.pkts[i], p.cols)
    requires forall i :: 0 <= i < |b.pdata| ==> r.pdata[i] == b.pdata[i] || (i < k + h && r.pdata[i] == buf.pkts[i])
    ensures BlockOk(p, f, r)
  {
    forall i | 0 <= i < k + h ensures r.cbi[i] < p.n {
      if i < k { assert DataSlot(buf, r, i); } else { assert ParitySlot(p, buf, r, k, i - k); }
    }
  }

  ghost predicate Decodable(f: Field, p: Params, w: Matrix, k: nat, h: nat, buf: Buffer, frames: seq<seq<nat>>, cols: nat) {
    && BufferOk(p, k, h, buf) && Shaped(w, p.n) && FramesOk(f, p, frames) && k + h < f.size && p.extra <= cols
    && Received(f, p, w, k, h, buf, frames, cols)
    && (forall i :: 0 <= i < |buf.pkts| ==> VecIn(f, buf.pkts[i], p.cols))
    && (forall i :: 0 <= i < k ==> buf.status[i] != Recovered)
    && 0 < CountData(buf, Absent, k) <= CountFrom(buf, Present, k, h)
  }

  lemma DecodableWidth(f: Field, p: Params, w: Matrix, k: nat, h: nat, buf: Buffer, frames: seq<seq<nat>>, cols: nat)
    requires Decodable(f, p, w, k, h, buf, frames, cols)
    ensures Width(p, buf, k, h) == cols
  {
    MaxPresentBound(buf, k, cols - p.extra);
    WidthExact(p, buf, k, h, cols);
  }

  /**
   * If can_decode holds for a block with a missing data packet and none recovered before, decoding
   * succeeds, and every data index then yields the original frame and its exact size.
   */
  method DecodeBlock(coder: Coder, k: nat, h: nat, buf: Buffer, ghost frames: seq<seq<nat>>, ghost cols: nat)
    returns (r: Buffer, rc: int)
    requires coder.Valid() && k + h <= |coder.fb.cbi|
    requires Decodable(coder.f, coder.p, coder.W(), k, h, buf, frames, cols)
    modifies coder`fb, coder.e, coder.d
    ensures rc == 0 && coder.Valid() && |r.pkts| == |buf.pkts| && |r.status| == |buf.status|
    ensures forall i :: 0 <= i < k ==> |r.pkts[i]| >= 2 + |frames[i]| && RetrievedSize(r.pkts[i]) == |frames[i]|
    ensures forall i :: 0 <= i < k ==> r.pkts[i][2..2 + |frames[i]|] == frames[i] && r.status[i] != Absent
  {
    var ok := PopulateCoder(coder, k, h, buf);
    DecodableWidth(coder.f, coder.p, coder.W(), k, h, buf, frames, cols);
    rc := DecodePopulated(coder, k, h, buf, frames);
    r := CopyBack(k, buf, coder.fb);
    forall i | 0 <= i < k
      ensures |r.pkts[i]| >= 2 + |frames[i]| && RetrievedSize(r.pkts[i]) == |frames[i]|
      ensures r.pkts[i][2..2 + |frames[i]|] == frames[i]
    {
      StoredRetrieved(r.pkts[i], frames[i]);
    }
  }

  method DecodePopulated(coder: Coder, k: nat, h: nat, buf: Buffer, ghost frames: seq<seq<nat>>) returns (rc: int)
    requires coder.Valid() && Decodable(coder.f, coder.p, coder.W(), k, h, buf, frames, coder.fb.c)
    requires Populated(coder.p, k, h, buf, coder.fb)
    modifies coder`fb, coder.e, coder.d
    ensures rc == 0 && coder.Valid() && k <= |coder.fb.pdata| == |coder.fb.pstat|
    ensures forall i :: 0 <= i < k ==>
      Stored(frames[i]) <= coder.fb.pdata[i] && (buf.status[i] != Present ==> coder.fb.pstat[i] == Genned)
  {
    Accepted(coder.p, coder.f.size, k, h, buf, coder.fb);
    ghost var b := coder.fb;
    rc := coder.RseCode('d');
    AfterDecode(coder.f, coder.p, coder.W(), k, h, buf, b, frames);
  }

  /** The coder's data packets are the booster's packet memory, so what was generated is now in the buffer. */
  method CopyBack(k: nat, buf: Buffer, b: Block) returns (r: Buffer)
    requires k <= |buf.pkts| == |buf.status| && k <= |b.pdata| && k <= |b.pstat|
    ensures |r.pkts| == |buf.pkts| && |r.status| == |buf.status| && r.size == buf.size
    ensures forall i :: 0 <= i < |buf.pkts| ==> r.pkts[i] == if i < k then b.pdata[i] else buf.pkts[i]
    ensures forall i :: 0 <= i < |buf.status| ==>
      r.status[i] == if i < k && b.pstat[i] == Genned then Recovered else buf.status[i]
  {
    var status := MarkRecovered(k, buf.status, b.pstat);
    r := Buffer(seq(|buf.pkts|, i requires 0 <= i < |buf.pkts| => if i < k then b.pdata[i] else buf.pkts[i]),
                buf.size, status);
  }

  lemma AfterDecode(f: Field, p: Params, w: Matrix, k: nat, h: nat, buf: Buffer, b: Block, frames: seq<seq<nat>>)
    requires IsField(f) && IsWeights(f, w, p.h, p.n) && BlockOk(p, f, b) && Codable(p, w, b) && b.c > 0
    requires Decodable(f, p, w, k, h, buf, frames, b.c) && Populated(p, k, h, buf, b)
    ensures var d := Coded(f, p, w, b, 'd');
      forall i :: 0 <= i < k ==>
        Stored(frames[i]) <= d.pdata[i] && (buf.status[i] != Present ==> d.pstat[i] == Genned)
  {
    forall i | 0 <= i < k
      ensures Stored(frames[i]) <= Coded(f, p, w, b, 'd').pdata[i]
      ensures buf.status[i] != Present ==> Coded(f, p, w, b, 'd').pstat[i] == Genned
    {
      AllStored(f, p, w, k, h, buf, b, frames, i);
      assert DataSlot(buf, b, i);
      if buf.status[i] != Present {
        assert i in Wants(p, b);
        var l :| 0 <= l < |Wants(p, b)| && Wants(p, b)[l] == i;
        WrittenFlag(p, b, Wants(p, b), ResultSheet(f, p, w, b, 'd'), 'd', b.c, l);
      }
    }
  }
}
