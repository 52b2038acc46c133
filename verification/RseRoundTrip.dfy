/** Encode, lose packets, decode: every packet comes back with its exact length. */
module RseRoundTrip {
  import opened Bits
  import opened Algebra
  import opened Elimination
  import opened ErasureCode
  import opened RseBlock
  import opened RseRecovery

  // ---------- What a coder call writes ----------

  lemma {:induction false} WriteSomeFrame(p: Params, b: Block, want: seq<nat>, x: Vec, c: nat, mode: char, j: nat, i: nat)
    requires p.h <= p.n && |b.cbi| == |b.plen| == |b.pdata| == |b.pstat| && c < b.c && j <= |want| == |x|
    requires forall l :: 0 <= l < |want| ==> want[l] < |b.cbi|
    requires forall l :: 0 <= l < |b.pdata| ==> c < |b.pdata[l]|
    requires i < |b.cbi| && i !in want[..j]
    ensures var r := WriteSome(p, b, want, x, c, mode, j);
      r.pdata[i] == b.pdata[i] && r.plen[i] == b.plen[i] && r.pstat[i] == b.pstat[i]
  {
    if j != 0 {
      assert want[..j] == want[..j - 1] + [want[j - 1]];
      WriteSomeFrame(p, b, want, x, c, mode, j - 1, i);
    }
  }

  lemma {:induction false} WriteSomeAt(p: Params, b: Block, want: seq<nat>, x: Vec, c: nat, mode: char, j: nat, l: nat)
    requires p.h <= p.n && |b.cbi| == |b.plen| == |b.pdata| == |b.pstat| && c < b.c && l < j <= |want| == |x|
    requires forall i :: 0 <= i < |want| ==> want[i] < |b.cbi|
    requires forall i :: 0 <= i < |b.pdata| ==> c < |b.pdata[i]|
    requires Distinct(want)
    ensures var r, q := WriteSome(p, b, want, x, c, mode, j), want[l];
      && r.pdata[q] == b.pdata[q][c := x[l]] && r.pstat[q] == NewFlag(b, b.pstat[q], c, mode)
      && r.plen[q] == NewLength(p, b, b.cbi[q], b.plen[q], x[l], c)
  {
    if l == j - 1 {
      WriteSomeFrame(p, b, want, x, c, mode, j - 1, want[l]);
    } else {
      WriteSomeAt(p, b, want, x, c, mode, j - 1, l);
    }
  }

  /** Packets that are not wanted are not touched. */
  lemma {:induction false} WriteAllFrame(p: Params, b: Block, want: seq<nat>, xs: seq<Vec>, mode: char, c: nat, i: nat)
    requires Sheet(p, b, want, xs) && c <= b.c && i < |b.cbi| && i !in want
    ensures var r := WriteAll(p, b, want, xs, mode, c);
      r.pdata[i] == b.pdata[i] && r.plen[i] == b.plen[i] && r.pstat[i] == b.pstat[i]
  {
    if c != 0 {
      WriteAllFrame(p, b, want, xs, mode, c - 1, i);
      WriteSomeFrame(p, WriteAll(p, b, want, xs, mode, c - 1), want, xs[c - 1], c - 1, mode, |want|, i);
    }
  }

  lemma WriteAllStep(p: Params, b: Block, want: seq<nat>, xs: seq<Vec>, mode: char, c: nat, l: nat)
    requires Sheet(p, b, want, xs) && c < b.c && l < |want|
    ensures var r, s, q := WriteAll(p, b, want, xs, mode, c), WriteAll(p, b, want, xs, mode, c + 1), want[l];
      && s.pdata[q] == r.pdata[q][c := xs[c][l]] && s.pstat[q] == NewFlag(b, r.pstat[q], c, mode)
      && s.plen[q] == NewLength(p, b, b.cbi[q], r.plen[q], xs[c][l], c)
  {
    WriteSomeAt(p, WriteAll(p, b, want, xs, mode, c), want, xs[c], c, mode, |want|, l);
  }

  /** A wanted packet holds the computed symbols at the positions done so far. */
  lemma {:induction false} Written(p: Params, b: Block, want: seq<nat>, xs: seq<Vec>, mode: char, c: nat, l: nat)
    requires Sheet(p, b, want, xs) && c <= b.c && l < |want|
    ensures forall i :: 0 <= i < c ==> WriteAll(p, b, want, xs, mode, c).pdata[want[l]][i] == xs[i][l]
  {
    if c != 0 {
      Written(p, b, want, xs, mode, c - 1, l);
      WriteAllStep(p, b, want, xs, mode, c - 1, l);
    }
  }

  lemma {:induction false} WrittenFlag(p: Params, b: Block, want: seq<nat>, xs: seq<Vec>, mode: char, c: nat, l: nat)
    requires Sheet(p, b, want, xs) && c <= b.c && l < |want| && (mode == 'd' || mode == 'e')
    ensures WriteAll(p, b, want, xs, mode, c).pstat[want[l]] == if 0 < c == b.c then Genned else b.pstat[want[l]]
  {
    if c != 0 {
      WrittenFlag(p, b, want, xs, mode, c - 1, l);
      WriteAllStep(p, b, want, xs, mode, c - 1, l);
    }
  }

  /** Statuses change only with the last symbol position. */
  lemma {:induction false} FlagsKept(p: Params, b: Block, want: seq<nat>, xs: seq<Vec>, mode: char, c: nat)
    requires Sheet(p, b, want, xs) && c < b.c
    ensures WriteAll(p, b, want, xs, mode, c).pstat == b.pstat
  {
    if c != 0 {
      FlagsKept(p, b, want, xs, mode, c - 1);
      var r := WriteAll(p, b, want, xs, mode, c);
      forall i | 0 <= i < |b.pstat| ensures r.pstat[i] == b.pstat[i] {
        if i in want {
          var l :| 0 <= l < |want| && want[l] == i;
          WriteAllStep(p, b, want, xs, mode, c - 1, l);
        } else {
          WriteAllFrame(p, b, want, xs, mode, c, i);
        }
      }
    }
  }

  lemma {:induction false} FindSame(p: Params, b: Block, b': Block, kind: Kind, i: nat)
    requires p.h <= p.n && i <= |b.cbi| == |b.pstat| && b'.cbi == b.cbi && b'.pstat == b.pstat
    ensures Find(p, b', kind, i) == Find(p, b, kind, i)
  {
    if i != 0 { FindSame(p, b, b', kind, i - 1); }
  }

  /** The blocks agree on everything the coder reads. */
  ghost predicate SameInputs(p: Params, b: Block, b': Block) {
    && p.h <= p.n && b.n <= |b.cbi| == |b.plen| == |b.pdata| == |b.pstat| && b'.n == b.n && b'.c == b.c
    && b'.cbi == b.cbi && b'.pstat == b.pstat && |b'.plen| == |b'.pdata| == |b.cbi|
    && (forall i :: 0 <= i < |b.pdata| ==> |b'.pdata[i]| == |b.pdata[i]|)
    && forall i :: 0 <= i < b.n && IsKind(p, b, Know, i) ==> b'.pdata[i] == b.pdata[i] && b'.plen[i] == b.plen[i]
  }

  lemma SameLists(p: Params, w: Matrix, b: Block, b': Block)
    requires Codable(p, w, b) && SameInputs(p, b, b')
    ensures Codable(p, w, b') && Wants(p, b') == Wants(p, b) && Uses(p, b') == Uses(p, b)
    ensures Find(p, b', Know, b.n) == Find(p, b, Know, b.n)
  {
    FindSame(p, b, b', Know, b.n);
    FindSame(p, b, b', Want, b.n);
    FindSame(p, b, b', Pari, b.n);
  }

  lemma SameConstants(f: Field, p: Params, w: Matrix, b: Block, b': Block, c: nat)
    requires Codable(p, w, b) && Codable(p, w, b') && SameInputs(p, b, b') && c < b.c
    ensures Constants(f, p, w, b', c) == Constants(f, p, w, b, c)
  {
    SameLists(p, w, b, b');
    FindSame(p, b, b', Pari, b.n);
    var know := Find(p, b, Know, b.n);
    assert Columns(b', know) == Columns(b, know);
    assert Symbols(p, b', know, c) == Symbols(p, b, know, c);
  }

  lemma SameResults(f: Field, p: Params, w: Matrix, b: Block, b': Block, mode: char, c: nat)
    requires Codable(p, w, b) && Codable(p, w, b') && SameInputs(p, b, b') && c < b.c
    ensures Results(f, p, w, b', mode, c) == Results(f, p, w, b, mode, c)
  {
    SameLists(p, w, b, b');
    SameConstants(f, p, w, b, b', c);
    assert Columns(b', Wants(p, b)) == Columns(b, Wants(p, b));
    assert Columns(b', Uses(p, b)) == Columns(b, Uses(p, b));
  }

  /** Until the last position is written, the coder still reads what it started with. */
  lemma WriteAllInputs(p: Params, b: Block, xs: seq<Vec>, mode: char, c: nat)
    requires p.h <= p.n && b.n <= |b.cbi| == |b.pstat| && Sheet(p, b, Wants(p, b), xs) && c < b.c
    ensures SameInputs(p, b, WriteAll(p, b, Wants(p, b), xs, mode, c))
  {
    FlagsKept(p, b, Wants(p, b), xs, mode, c);
    forall i | 0 <= i < b.n && IsKind(p, b, Know, i)
      ensures var r := WriteAll(p, b, Wants(p, b), xs, mode, c); r.pdata[i] == b.pdata[i] && r.plen[i] == b.plen[i]
    {
      WriteAllFrame(p, b, Wants(p, b), xs, mode, c, i);
    }
  }

  lemma {:induction false} ParityLength(p: Params, b: Block, want: seq<nat>, xs: seq<Vec>, mode: char, c: nat, l: nat)
    requires Sheet(p, b, want, xs) && c <= b.c && l < |want| && b.cbi[want[l]] >= p.K() && p.extra > 0
    ensures WriteAll(p, b, want, xs, mode, c).plen[want[l]] == b.plen[want[l]]
  {
    if c != 0 {
      ParityLength(p, b, want, xs, mode, c - 1, l);
      WriteAllStep(p, b, want, xs, mode, c - 1, l);
    }
  }

  // ---------- The length travels in the last symbols ----------

  lemma {:induction false} Pow2Add(a: nat, b: nat)
    ensures Pow2(a + b) == Pow2(a) * Pow2(b)
  {
    if a != 0 {
      Pow2Add(a - 1, b);
      assert 2 * (Pow2(a - 1) * Pow2(b)) == (2 * Pow2(a - 1)) * Pow2(b);
    }
  }

  lemma MulMono(d: nat, a: nat, b: nat)
    requires a <= b
    ensures d * a <= d * b
  {
    assert d * b == d * a + d * (b - a);
  }

  lemma Quotient(x: nat, d: nat, q: nat, r: nat)
    requires d > 0 && x == d * q + r && r < d
    ensures x / d == q
  {
    var y := x / d;
    assert d * y <= x < d * y + d;
    if y > q { MulMono(d, q + 1, y); }
    if y < q { MulMono(d, y + 1, q); }
  }

  lemma DivDiv(x: nat, a: nat, b: nat)
    requires a > 0 && b > 0 && a * b > 0
    ensures x / (a * b) == (x / a) / b
  {
    var q, r := x / a, x % a;
    var s, t := q / b, q % b;
    Distribute(a, b, s, t);
    MulMono(a, t + 1, b);
    MulNext(a, t);
    Quotient(x, a * b, s, a * t + r);
  }

  lemma MulNext(a: nat, t: nat)
    ensures a * (t + 1) == a * t + a
  {
  }

  lemma Distribute(a: nat, b: nat, s: nat, t: nat)
    ensures a * (b * s + t) == a * (b * s) + a * t && a * (b * s) == (a * b) * s
  {
  }

  /** The digits above position e, as a number. */
  function Prefix(p: Params, len: nat, e: nat): nat { Rounded(len, Pow2(p.bits * e)) }

  /** The multiple of d at or below x. */
  function Rounded(x: nat, d: nat): nat
    requires d > 0
  {
    x - x % d
  }

  lemma RoundedIs(x: nat, d: nat)
    requires d > 0
    ensures Rounded(x, d) == (x / d) * d
  {
  }

  lemma PrefixStep(p: Params, len: nat, e: nat)
    ensures Prefix(p, len, e + 1) + DigitValue(p, LengthDigit(p, len, e), e) == Prefix(p, len, e)
  {
    var a, b := Pow2(p.bits * e), Pow2(p.bits);
    assert Pow2(p.bits * (e + 1)) == a * b by {
      assert p.bits * (e + 1) == p.bits * e + p.bits;
      Pow2Add(p.bits * e, p.bits);
    }
    DivDiv(len, a, b);
    DigitStep(len / a, a, b);
    RoundedIs(len, a);
    RoundedIs(len, a * b);
  }

  lemma DigitStep(q: nat, a: nat, b: nat)
    requires b > 0
    ensures (q / b) * (a * b) + (q % b) * a == q * a
  {
    var s, t := q / b, q % b;
    assert q == b * s + t;
    assert s * (a * b) == (b * s) * a;
    assert (b * s + t) * a == (b * s) * a + t * a;
  }

  lemma PrefixEnds(p: Params, len: nat)
    requires len < Pow2(p.bits * p.extra)
    ensures Prefix(p, len, p.extra) == 0 && Prefix(p, len, 0) == len
  {
    RoundedIs(len, Pow2(p.bits * p.extra));
    Quotient(len, Pow2(p.bits * p.extra), 0, len);
    assert p.bits * 0 == 0;
  }

  lemma {:induction false} DataLength(p: Params, b: Block, want: seq<nat>, xs: seq<Vec>, mode: char, c: nat, l: nat, len: nat)
    requires Sheet(p, b, want, xs) && 0 < c <= b.c && l < |want| && b.cbi[want[l]] < p.K()
    requires 0 < p.extra <= b.c && len < Pow2(p.bits * p.extra)
    requires forall i :: b.c - p.extra <= i < b.c ==> xs[i][l] == LengthDigit(p, len, b.c - i - 1)
    ensures WriteAll(p, b, want, xs, mode, c).plen[want[l]] ==
      if c <= b.c - p.extra then 0 else Prefix(p, len, b.c - c)
  {
    WriteAllStep(p, b, want, xs, mode, c - 1, l);
    if c > 1 { DataLength(p, b, want, xs, mode, c - 1, l, len); }
    PrefixEnds(p, len);
    if c > b.c - p.extra { PrefixStep(p, len, b.c - c); }
    NextLength(p, b, b.cbi[want[l]], WriteAll(p, b, want, xs, mode, c - 1).plen[want[l]], xs[c - 1][l], c - 1,
      if c > b.c - p.extra then Prefix(p, len, b.c - c + 1) else 0, if c > b.c - p.extra then Prefix(p, len, b.c - c) else 0);
  }

  /** One more digit of the length: high is the number before it, low the number after. */
  lemma NextLength(p: Params, b: Block, col: nat, before: nat, x: nat, c: nat, high: nat, low: nat)
    requires p.h <= p.n && col < p.K() && 0 < p.extra <= b.c && c < b.c
    requires c > 0 ==> before == if c <= b.c - p.extra then 0 else high
    requires c <= b.c - p.extra ==> high == 0
    requires c >= b.c - p.extra ==> high + DigitValue(p, x, b.c - c - 1) == low
    requires c < b.c - p.extra ==> low == 0
    ensures NewLength(p, b, col, before, x, c) == low
  {
  }

  // ---------- The encoder's output carries the codeword ----------

  ghost predicate LengthsFit(p: Params, packets: seq<seq<nat>>) {
    p.extra > 0 && forall j :: 0 <= j < |packets| ==> |packets[j]| < Pow2(p.bits * p.extra)
  }

  /** Parity packets are as long as the block is wide, so none of their symbols is read as padding. */
  ghost predicate FullParity(p: Params, b: Block)
    requires p.h <= p.n && b.n <= |b.cbi| == |b.plen| == |b.pstat|
  {
    forall i :: 0 <= i < b.n && b.pstat[i] == Wanted ==> b.plen[i] == b.c
  }

  lemma EncodedParity(f: Field, p: Params, w: Matrix, b: Block, packets: seq<seq<nat>>, c: nat, l: nat)
    requires IsField(f) && IsWeights(f, w, p.h, p.n) && EncodeReady(f, p, b, packets) && Codable(p, w, b)
    requires p.extra > 0 && FullParity(p, b) && c < b.c && l < |Wants(p, b)|
    ensures var i := Wants(p, b)[l];
      Symbol(p, Coded(f, p, w, b, 'e'), i, c) == Word(f, p, w, packets, b.c, c)[b.cbi[i]]
  {
    var xs := ResultSheet(f, p, w, b, 'e');
    Written(p, b, Wants(p, b), xs, 'e', b.c, l);
    ParityLength(p, b, Wants(p, b), xs, 'e', b.c, l);
    EncodeResult(f, p, w, b, packets, c, l);
  }

  /** Slot i is the same in both blocks. */
  ghost predicate SameSlot(b: Block, e: Block, i: nat) {
    && e.n == b.n && e.c == b.c && e.cbi == b.cbi && i < |b.cbi| == |b.plen| == |b.pdata|
    && |e.plen| == |e.pdata| == |e.cbi| && e.pdata[i] == b.pdata[i] && e.plen[i] == b.plen[i]
  }

  lemma CodedFrame(f: Field, p: Params, w: Matrix, b: Block, mode: char, i: nat)
    requires Codable(p, w, b) && i < |b.cbi| && i !in Wants(p, b)
    ensures SameSlot(b, Coded(f, p, w, b, mode), i) && Coded(f, p, w, b, mode).pstat[i] == b.pstat[i]
  {
    WriteAllFrame(p, b, Wants(p, b), ResultSheet(f, p, w, b, mode), mode, b.c, i);
  }

  lemma SameSymbol(p: Params, b: Block, e: Block, i: nat, c: nat)
    requires p.h <= p.n && SameSlot(b, e, i) && c < b.c && c < |b.pdata[i]|
    ensures Symbol(p, e, i, c) == Symbol(p, b, i, c)
  {
  }

  lemma EncodedData(f: Field, p: Params, w: Matrix, b: Block, packets: seq<seq<nat>>, c: nat, i: nat)
    requires IsField(f) && IsWeights(f, w, p.h, p.n) && EncodeReady(f, p, b, packets) && Codable(p, w, b)
    requires c < b.c && i < b.n && b.cbi[i] < p.K()
    ensures Symbol(p, Coded(f, p, w, b, 'e'), i, c) == Word(f, p, w, packets, b.c, c)[b.cbi[i]]
  {
    CodedFrame(f, p, w, b, 'e', i);
    SameSymbol(p, b, Coded(f, p, w, b, 'e'), i, c);
    KnownPacket(p, b, i, packets[b.cbi[i]], c);
    WordIn(f, p, w, packets, b.c, c);
  }

  // ---------- The decoder's output holds the packets ----------

  /** A block the decoder can work on: laid out as Layout asks, and every known packet true to the codeword. */
  ghost predicate DecodeReady(f: Field, p: Params, w: Matrix, b: Block, packets: seq<seq<nat>>) {
    && PacketsOk(f, p, packets, b.c) && Layout(f, p, b, |packets|) && Shaped(w, p.n)
    && forall c :: 0 <= c < b.c ==> TrueTo(f, p, b, Word(f, p, w, packets, b.c, c), c)
  }

  lemma DecodedSymbol(f: Field, p: Params, w: Matrix, b: Block, packets: seq<seq<nat>>, c: nat, l: nat)
    requires IsField(f) && IsWeights(f, w, p.h, p.n) && DecodeReady(f, p, w, b, packets) && Codable(p, w, b)
    requires c < b.c && l < |Wants(p, b)|
    ensures b.cbi[Wants(p, b)[l]] < |packets|
    ensures Results(f, p, w, b, 'd', c)[l] == PacketSymbol(p, packets[b.cbi[Wants(p, b)[l]]], b.c, c)
  {
    WordIn(f, p, w, packets, b.c, c);
    DecodeResult(f, p, w, b, Word(f, p, w, packets, b.c, c), |packets|, 'd', c, l);
  }

  /** Writing the symbols of a packet, position by position, yields the packet and its length. */
  lemma HeldPacket(p: Params, b: Block, want: seq<nat>, xs: seq<Vec>, l: nat, packet: seq<nat>)
    requires Sheet(p, b, want, xs) && l < |want| && b.cbi[want[l]] < p.K() && 0 < p.extra <= b.c
    requires |packet| <= b.c - p.extra && |packet| < Pow2(p.bits * p.extra)
    requires forall c :: 0 <= c < b.c ==> xs[c][l] == PacketSymbol(p, packet, b.c, c)
    ensures Holds(WriteAll(p, b, want, xs, 'd', b.c), want[l], packet)
  {
    Written(p, b, want, xs, 'd', b.c, l);
    DataLength(p, b, want, xs, 'd', b.c, l, |packet|);
    PrefixEnds(p, |packet|);
  }

  lemma DecodedPacket(f: Field, p: Params, w: Matrix, b: Block, packets: seq<seq<nat>>, l: nat)
    requires IsField(f) && IsWeights(f, w, p.h, p.n) && DecodeReady(f, p, w, b, packets) && Codable(p, w, b)
    requires LengthsFit(p, packets) && l < |Wants(p, b)|
    ensures b.cbi[Wants(p, b)[l]] < |packets|
    ensures Holds(Coded(f, p, w, b, 'd'), Wants(p, b)[l], packets[b.cbi[Wants(p, b)[l]]])
  {
    var xs, j := ResultSheet(f, p, w, b, 'd'), b.cbi[Wants(p, b)[l]];
    forall c | 0 <= c < b.c ensures j < |packets| && xs[c][l] == PacketSymbol(p, packets[j], b.c, c) {
      DecodedSymbol(f, p, w, b, packets, c, l);
    }
    HeldPacket(p, b, Wants(p, b), xs, l, packets[j]);
  }

  // ---------- Encode, lose packets, decode ----------

  /** What arrives: some packets of b1 unchanged and marked known, the others lost with any contents at all. */
  ghost predicate Arrived(p: Params, b1: Block, b2: Block)
    requires p.h <= p.n && b1.n <= |b1.cbi| == |b1.plen| == |b1.pdata| == |b1.pstat|
  {
    && b2.n == b1.n && b2.c == b1.c && b2.cbi == b1.cbi
    && |b2.plen| == |b2.pdata| == |b2.pstat| == |b2.cbi|
    && forall i :: 0 <= i < b1.n ==>
         if b2.pstat[i] == Known then
           (b1.pstat[i] == Known || b1.pstat[i] == Genned) && b2.pdata[i] == b1.pdata[i] && b2.plen[i] == b1.plen[i]
         else b2.pstat[i] == if b1.cbi[i] < p.K() then Wanted else Ignore
  }

  lemma EncodedSlot(f: Field, p: Params, w: Matrix, b: Block, packets: seq<seq<nat>>, i: nat)
    requires IsField(f) && IsWeights(f, w, p.h, p.n) && EncodeReady(f, p, b, packets) && Codable(p, w, b)
    requires p.extra > 0 && FullParity(p, b) && i < b.n
    requires var s := Coded(f, p, w, b, 'e').pstat[i]; s == Known || s == Genned
    ensures forall c :: 0 <= c < b.c ==>
      Symbol(p, Coded(f, p, w, b, 'e'), i, c) == Word(f, p, w, packets, b.c, c)[b.cbi[i]]
  {
    forall c | 0 <= c < b.c
      ensures Symbol(p, Coded(f, p, w, b, 'e'), i, c) == Word(f, p, w, packets, b.c, c)[b.cbi[i]]
    {
      if b.cbi[i] < p.K() {
        EncodedData(f, p, w, b, packets, c, i);
      } else {
        if i !in Wants(p, b) { CodedFrame(f, p, w, b, 'e', i); }
        var l :| 0 <= l < |Wants(p, b)| && Wants(p, b)[l] == i;
        EncodedParity(f, p, w, b, packets, c, l);
      }
    }
  }

  lemma ArrivedSlot(f: Field, p: Params, w: Matrix, b: Block, packets: seq<seq<nat>>, b2: Block, i: nat, c: nat)
    requires IsField(f) && IsWeights(f, w, p.h, p.n) && EncodeReady(f, p, b, packets) && Codable(p, w, b)
    requires p.extra > 0 && FullParity(p, b) && c < b.c
    requires Arrived(p, Coded(f, p, w, b, 'e'), b2) && BlockOk(p, f, b2) && i < b.n && IsKind(p, b2, Know, i)
    ensures Symbol(p, b2, i, c) == Word(f, p, w, packets, b.c, c)[b2.cbi[i]]
  {
    EncodedSlot(f, p, w, b, packets, i);
    SameSymbol(p, Coded(f, p, w, b, 'e'), b2, i, c);
  }

  lemma ArrivedLayout(f: Field, p: Params, b: Block, packets: seq<seq<nat>>, e: Block, b2: Block)
    requires EncodeReady(f, p, b, packets) && e.n == b.n && e.cbi == b.cbi
    requires |e.cbi| == |e.plen| == |e.pdata| == |e.pstat| && Arrived(p, e, b2) && BlockOk(p, f, b2)
    ensures Layout(f, p, b2, |packets|)
  {
    forall j | 0 <= j < |packets| ensures HasColumn(b2, j) {
      assert HasColumn(b, j);
      var i :| 0 <= i < b.n && b.cbi[i] == j;
      assert b2.cbi[i] == j;
    }
  }

  lemma ArrivedReady(f: Field, p: Params, w: Matrix, b: Block, packets: seq<seq<nat>>, b2: Block)
    requires IsField(f) && IsWeights(f, w, p.h, p.n) && EncodeReady(f, p, b, packets) && Codable(p, w, b)
    requires p.extra > 0 && FullParity(p, b)
    requires Arrived(p, Coded(f, p, w, b, 'e'), b2) && BlockOk(p, f, b2)
    ensures DecodeReady(f, p, w, b2, packets)
  {
    ArrivedLayout(f, p, b, packets, Coded(f, p, w, b, 'e'), b2);
    forall c | 0 <= c < b.c ensures TrueTo(f, p, b2, Word(f, p, w, packets, b.c, c), c) {
      forall i | 0 <= i < b.n && IsKind(p, b2, Know, i)
        ensures Symbol(p, b2, i, c) == Word(f, p, w, packets, b.c, c)[b2.cbi[i]]
      {
        ArrivedSlot(f, p, w, b, packets, b2, i, c);
      }
    }
  }

  /**
   * The central theorem. For any packets of any lengths that fit, and any loss pattern the decoder
   * accepts, decoding what arrives of an encoded block restores every data packet and its length.
   */
  lemma EncodeLoseDecode(f: Field, p: Params, w: Matrix, b: Block, packets: seq<seq<nat>>, b2: Block)
    requires IsField(f) && IsWeights(f, w, p.h, p.n) && EncodeReady(f, p, b, packets) && Codable(p, w, b)
    requires LengthsFit(p, packets) && FullParity(p, b)
    requires Arrived(p, Coded(f, p, w, b, 'e'), b2) && BlockOk(p, f, b2) && Codable(p, w, b2)
    ensures forall i :: 0 <= i < b.n && b.cbi[i] < p.K() ==>
      Holds(Coded(f, p, w, b2, 'd'), i, packets[b.cbi[i]])
  {
    ArrivedReady(f, p, w, b, packets, b2);
    forall i | 0 <= i < b.n && b.cbi[i] < p.K()
      ensures Holds(Coded(f, p, w, b2, 'd'), i, packets[b.cbi[i]])
    {
      if i in Wants(p, b2) {
        var l :| 0 <= l < |Wants(p, b2)| && Wants(p, b2)[l] == i;
        DecodedPacket(f, p, w, b2, packets, l);
      } else {
        CodedFrame(f, p, w, b, 'e', i);
        CodedFrame(f, p, w, b2, 'd', i);
      }
    }
  }
}
