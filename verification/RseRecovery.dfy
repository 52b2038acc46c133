/** Full recovery: what an encoder call and a later decoder call leave in a block, for every loss pattern. */
module RseRecovery {
  import opened Bits
  import opened Algebra
  import opened Elimination
  import opened ErasureCode
  import opened RseBlock

  // ---------- The codeword a block of packets stands for ----------

  /** The symbol of a packet at position c of a block of width cols: data, padding, then the length. */
  function PacketSymbol(p: Params, packet: seq<nat>, cols: nat, c: nat): nat
    requires c < cols
  {
    if c >= cols - p.extra then LengthDigit(p, |packet|, cols - c - 1)
    else if c < |packet| then packet[c] else 0
  }

  function DataWord(p: Params, packets: seq<seq<nat>>, cols: nat, c: nat): Vec
    requires c < cols
  {
    seq<nat>(p.n, j requires 0 <= j < p.n => if j < |packets| then PacketSymbol(p, packets[j], cols, c) else 0)
  }

  /** The codeword at position c: the data symbols completed by their parity symbols. */
  function Word(f: Field, p: Params, w: Matrix, packets: seq<seq<nat>>, cols: nat, c: nat): Vec
    requires c < cols && Shaped(w, p.n)
  {
    Sum(f, DataWord(p, packets, cols, c), ParityPart(f, w, DataWord(p, packets, cols, c)))
  }

  ghost predicate PacketsOk(f: Field, p: Params, packets: seq<seq<nat>>, cols: nat) {
    && p.h <= p.n && |packets| <= p.K() && p.extra <= cols <= p.cols && f.size == Pow2(p.bits)
    && forall j :: 0 <= j < |packets| ==> |packets[j]| <= cols - p.extra && VecIn(f, packets[j], |packets[j]|)
  }

  lemma DataWordIn(f: Field, p: Params, packets: seq<seq<nat>>, cols: nat, c: nat)
    requires IsField(f) && PacketsOk(f, p, packets, cols) && c < cols
    ensures VecIn(f, DataWord(p, packets, cols, c), p.n)
  {
  }

  lemma WordIn(f: Field, p: Params, w: Matrix, packets: seq<seq<nat>>, cols: nat, c: nat)
    requires IsField(f) && PacketsOk(f, p, packets, cols) && c < cols && IsWeights(f, w, p.h, p.n)
    ensures VecIn(f, Word(f, p, w, packets, cols, c), p.n)
    ensures Solves(f, w, p.h, Word(f, p, w, packets, cols, c))
    ensures forall j :: 0 <= j < p.K() ==> Word(f, p, w, packets, cols, c)[j] == DataWord(p, packets, cols, c)[j]
    ensures forall j :: p.K() <= j < p.n ==>
      Word(f, p, w, packets, cols, c)[j] == Dot(f, w[p.n - 1 - j], DataWord(p, packets, cols, c), p.n)
  {
    var d := DataWord(p, packets, cols, c);
    DataWordIn(f, p, packets, cols, c);
    Completed(f, w, p.h, d);
    forall j | 0 <= j < p.n
      ensures f.add(d[j], ParityPart(f, w, d)[j]) == if j < p.K() then d[j] else Dot(f, w[p.n - 1 - j], d, p.n)
    {
      Zero(f, d[j]);
      if j >= p.K() { Zero(f, ParityPart(f, w, d)[j]); }
    }
  }

  // ---------- What matrix_multiply accumulates ----------

  /** v agrees with the symbols of the known packets, and every other column is blank in v or in row r. */
  ghost predicate KnownSymbols(f: Field, p: Params, b: Block, know: seq<nat>, c: nat, r: Vec, v: Vec) {
    && p.h <= p.n && |b.cbi| == |b.plen| == |b.pdata| && c < b.c && VecIn(f, r, |v|) && VecIn(f, v, |v|)
    && (forall j :: 0 <= j < |know| ==> know[j] < |b.cbi| && c < |b.pdata[know[j]]| && b.cbi[know[j]] < |v|)
    && (forall j :: 0 <= j < |know| ==> v[b.cbi[know[j]]] == Symbol(p, b, know[j], c))
    && Distinct(Columns(b, know))
    && forall x :: 0 <= x < |v| && x !in Columns(b, know) ==> v[x] == 0 || r[x] == 0
  }

  lemma KnownSum(f: Field, p: Params, b: Block, know: seq<nat>, c: nat, r: Vec, v: Vec)
    requires IsField(f) && KnownSymbols(f, p, b, know, c, r, v)
    ensures Dot(f, Gather(r, Columns(b, know)), Symbols(p, b, know, c), |know|) == Dot(f, r, v, |v|)
  {
    var cs := Columns(b, know);
    var u: Vec := seq<nat>(|v|, x requires 0 <= x < |v| => if x in cs then v[x] else 0);
    DotMasked(f, r, v, u, |v|);
    assert cs[..|cs|] == cs;
    DotGather(f, r, u, cs, |cs|);
    forall j | 0 <= j < |cs| ensures Gather(u, cs)[j] == Symbols(p, b, know, c)[j] { assert cs[j] in cs; }
    assert Gather(u, cs) == Symbols(p, b, know, c);
  }

  /** The accumulated constant of a parity equation is the inner product with any such vector. */
  lemma ConstantSum(f: Field, p: Params, w: Matrix, b: Block, col: nat, c: nat, v: Vec)
    requires IsField(f) && Codable(p, w, b) && p.K() <= col < p.n == |v| && c < b.c
    requires KnownSymbols(f, p, b, Find(p, b, Know, b.n), c, w[p.n - 1 - col], v)
    ensures Constant(f, p, w, b, col, c) == Dot(f, w[p.n - 1 - col], v, p.n)
  {
    KnownSum(f, p, b, Find(p, b, Know, b.n), c, w[p.n - 1 - col], v);
  }

  // ---------- Slots and their columns ----------

  /** No two of the first n slots stand for the same codeword column. */
  ghost predicate DistinctColumns(b: Block)
    requires b.n <= |b.cbi|
  {
    forall i, j :: 0 <= i < j < b.n ==> b.cbi[i] != b.cbi[j]
  }

  /** Some slot stands for column x. */
  ghost predicate HasColumn(b: Block, x: nat)
    requires b.n <= |b.cbi|
  {
    exists i :: 0 <= i < b.n && b.cbi[i] == x
  }

  lemma ColumnsDistinct(b: Block, slots: seq<nat>)
    requires b.n <= |b.cbi| && DistinctColumns(b) && Distinct(slots)
    requires forall j :: 0 <= j < |slots| ==> slots[j] < b.n
    ensures Distinct(Columns(b, slots))
  {
  }

  /** Slot i holds a packet. */
  ghost predicate Holds(b: Block, i: nat, packet: seq<nat>)
    requires i < |b.plen| == |b.pdata|
  {
    b.plen[i] == |packet| <= |b.pdata[i]| && b.pdata[i][..|packet|] == packet
  }

  // ---------- Encoding ----------

  /** All packets are present as known data, and parity is wanted or absent, never known already. */
  ghost predicate EncodeReady(f: Field, p: Params, b: Block, packets: seq<seq<nat>>) {
    && BlockOk(p, f, b) && PacketsOk(f, p, packets, b.c) && DistinctColumns(b)
    && (forall i :: 0 <= i < b.n ==>
         if b.cbi[i] < p.K() then b.pstat[i] == Known && b.cbi[i] < |packets| && Holds(b, i, packets[b.cbi[i]])
         else b.pstat[i] == Wanted || b.pstat[i] == Ignore || b.pstat[i] == Genold)
    && (forall j :: 0 <= j < |packets| ==> HasColumn(b, j))
  }

  lemma {:induction false} SameFinds(p: Params, b: Block, x: Kind, y: Kind, i: nat)
    requires p.h <= p.n && i <= |b.cbi| == |b.pstat| && forall l :: 0 <= l < i ==> (IsKind(p, b, x, l) <==> IsKind(p, b, y, l))
    ensures Find(p, b, x, i) == Find(p, b, y, i)
  {
    if i != 0 { SameFinds(p, b, x, y, i - 1); }
  }

  lemma EncodeFinds(f: Field, p: Params, b: Block, packets: seq<seq<nat>>)
    requires EncodeReady(f, p, b, packets)
    ensures Find(p, b, Want, b.n) == Find(p, b, Pari, b.n)
  {
    SameFinds(p, b, Want, Pari, b.n);
  }

  lemma EncodeKnown(f: Field, p: Params, b: Block, packets: seq<seq<nat>>, c: nat, r: Vec)
    requires IsField(f) && EncodeReady(f, p, b, packets) && c < b.c <= p.cols && VecIn(f, r, p.n)
    ensures KnownSymbols(f, p, b, Find(p, b, Know, b.n), c, r, DataWord(p, packets, b.c, c))
  {
    DataWordIn(f, p, packets, b.c, c);
    var know, v := Find(p, b, Know, b.n), DataWord(p, packets, b.c, c);
    ColumnsDistinct(b, know);
    forall x | 0 <= x < |packets| ensures x in Columns(b, know) {
      assert HasColumn(b, x);
      var i :| 0 <= i < b.n && b.cbi[i] == x;
      InColumns(b, know, i, x);
    }
    forall l | 0 <= l < |know| ensures v[b.cbi[know[l]]] == Symbol(p, b, know[l], c) {
      KnownPacket(p, b, know[l], packets[b.cbi[know[l]]], c);
    }
  }

  /** Every wanted parity packet receives its symbol of the codeword. */
  lemma EncodeResult(f: Field, p: Params, w: Matrix, b: Block, packets: seq<seq<nat>>, c: nat, j: nat)
    requires IsField(f) && IsWeights(f, w, p.h, p.n) && EncodeReady(f, p, b, packets)
    requires Codable(p, w, b) && c < b.c && j < |Wants(p, b)|
    ensures Results(f, p, w, b, 'e', c)[j] == Word(f, p, w, packets, b.c, c)[b.cbi[Wants(p, b)[j]]]
  {
    EncodeFinds(f, p, b, packets);
    ResultsEncoded(f, p, w, b, c, j);
    EncodeConstant(f, p, w, b, packets, c, b.cbi[Wants(p, b)[j]]);
  }

  lemma ResultsEncoded(f: Field, p: Params, w: Matrix, b: Block, c: nat, j: nat)
    requires Codable(p, w, b) && c < b.c && j < |Wants(p, b)|
    ensures Results(f, p, w, b, 'e', c)[j] == Constant(f, p, w, b, b.cbi[Find(p, b, Pari, b.n)[j]], c)
  {
  }

  /** The constant of a parity column is the parity symbol of the data. */
  lemma EncodeConstant(f: Field, p: Params, w: Matrix, b: Block, packets: seq<seq<nat>>, c: nat, col: nat)
    requires IsField(f) && IsWeights(f, w, p.h, p.n) && EncodeReady(f, p, b, packets)
    requires Codable(p, w, b) && c < b.c && p.K() <= col < p.n
    ensures Constant(f, p, w, b, col, c) == Word(f, p, w, packets, b.c, c)[col]
  {
    EncodeKnown(f, p, b, packets, c, w[p.n - 1 - col]);
    ConstantSum(f, p, w, b, col, c, DataWord(p, packets, b.c, c));
    WordIn(f, p, w, packets, b.c, c);
  }

  lemma KnownPacket(p: Params, b: Block, i: nat, packet: seq<nat>, c: nat)
    requires p.h <= p.n && i < |b.cbi| == |b.plen| == |b.pdata| && c < |b.pdata[i]| && c < b.c
    requires Holds(b, i, packet) && b.cbi[i] < p.K()
    ensures Symbol(p, b, i, c) == PacketSymbol(p, packet, b.c, c)
  {
    if c < |packet| { assert b.pdata[i][..|packet|][c] == b.pdata[i][c]; }
  }

  // ---------- Decoding ----------

  predicate StatusFits(p: Params, flag: Flag, col: nat, k: nat)
    requires p.h <= p.n
  {
    match flag
    case Known => true
    case Genned => true
    case Wanted => col < k
    case Ignore => col >= p.K()
    case Genold => col >= p.K()
    case Null => false
  }

  /** Slots are known, or wanted data among the first k columns, or parity left out; all data is there. */
  ghost predicate Layout(f: Field, p: Params, b: Block, k: nat) {
    && BlockOk(p, f, b) && DistinctColumns(b) && k <= p.K()
    && (forall i :: 0 <= i < b.n ==> StatusFits(p, b.pstat[i], b.cbi[i], k))
    && forall j :: 0 <= j < k ==> HasColumn(b, j)
  }

  /** The known packets carry the symbols of t at position c. */
  ghost predicate TrueTo(f: Field, p: Params, b: Block, t: Vec, c: nat)
    requires BlockOk(p, f, b) && |t| == p.n && c < b.c <= p.cols
  {
    forall i :: 0 <= i < b.n && IsKind(p, b, Know, i) ==> Symbol(p, b, i, c) == t[b.cbi[i]]
  }

  /** t is a codeword whose data lies in the first k columns. */
  ghost predicate Codeword(f: Field, p: Params, w: Matrix, t: Vec, k: nat) {
    && p.h <= p.n && MatrixIn(f, w, p.h, p.n) && VecIn(f, t, p.n) && Solves(f, w, p.h, t)
    && forall x :: k <= x < p.K() ==> t[x] == 0
  }

  lemma DecodeSelection(f: Field, p: Params, w: Matrix, b: Block, k: nat)
    requires Layout(f, p, b, k) && Codable(p, w, b)
    ensures Selection(p.h, p.n, Columns(b, Wants(p, b)), Columns(b, Uses(p, b)))
    ensures forall j :: 0 <= j < |Uses(p, b)| ==> Uses(p, b)[j] in Find(p, b, Know, b.n)
  {
    ColumnsDistinct(b, Wants(p, b));
    ColumnsDistinct(b, Uses(p, b));
  }

  lemma BlankedKnown(f: Field, p: Params, b: Block, t: Vec, c: nat, i: nat)
    requires BlockOk(p, f, b) && DistinctColumns(b) && |t| == p.n && c < b.c <= p.cols && TrueTo(f, p, b, t, c)
    requires i < b.n && IsKind(p, b, Know, i)
    ensures Blank(t, Columns(b, Wants(p, b)))[b.cbi[i]] == Symbol(p, b, i, c)
  {
    var want := Wants(p, b);
    forall l | 0 <= l < |want| ensures b.cbi[want[l]] != b.cbi[i] { assert want[l] != i; }
  }

  /** A data column that no known packet has is wanted. */
  lemma WantedColumn(f: Field, p: Params, b: Block, k: nat, x: nat)
    requires Layout(f, p, b, k) && x < k && x !in Columns(b, Find(p, b, Know, b.n))
    ensures x in Columns(b, Wants(p, b))
  {
    assert HasColumn(b, x);
    var i :| 0 <= i < b.n && b.cbi[i] == x;
    InColumns(b, Find(p, b, Know, b.n), i, x);
    InColumns(b, Wants(p, b), i, x);
  }

  /** A parity column that no known packet has is not in a selected equation. */
  lemma OtherParity(f: Field, p: Params, w: Matrix, b: Block, k: nat, j: nat, x: nat)
    requires IsWeights(f, w, p.h, p.n) && Layout(f, p, b, k) && Codable(p, w, b)
    requires j < |Wants(p, b)| && p.K() <= x < p.n && x !in Columns(b, Find(p, b, Know, b.n))
    ensures w[p.n - 1 - b.cbi[Uses(p, b)[j]]][x] == 0
  {
    var col := b.cbi[Uses(p, b)[j]];
    DecodeSelection(f, p, w, b, k);
    InColumns(b, Find(p, b, Know, b.n), Uses(p, b)[j], col);
    assert Entry(w, p.n, p.n - 1 - col, p.n - 1 - x) == 0;
  }

  lemma BlankedOther(f: Field, p: Params, w: Matrix, b: Block, t: Vec, k: nat, j: nat, x: nat)
    requires IsWeights(f, w, p.h, p.n) && Layout(f, p, b, k) && Codable(p, w, b)
    requires Codeword(f, p, w, t, k) && j < |Wants(p, b)| && x < p.n && x !in Columns(b, Find(p, b, Know, b.n))
    ensures Blank(t, Columns(b, Wants(p, b)))[x] == 0 || w[p.n - 1 - b.cbi[Uses(p, b)[j]]][x] == 0
  {
    if x < k {
      WantedColumn(f, p, b, k, x);
    } else if x >= p.K() {
      OtherParity(f, p, w, b, k, j, x);
    }
  }

  lemma DecodeKnown(f: Field, p: Params, w: Matrix, b: Block, t: Vec, k: nat, c: nat, j: nat)
    requires IsField(f) && IsWeights(f, w, p.h, p.n) && Layout(f, p, b, k) && Codable(p, w, b)
    requires Codeword(f, p, w, t, k) && c < b.c && TrueTo(f, p, b, t, c) && j < |Wants(p, b)|
    ensures KnownSymbols(f, p, b, Find(p, b, Know, b.n), c, w[p.n - 1 - b.cbi[Uses(p, b)[j]]],
                         Blank(t, Columns(b, Wants(p, b))))
  {
    var know := Find(p, b, Know, b.n);
    ColumnsDistinct(b, know);
    forall l | 0 <= l < |know|
      ensures Blank(t, Columns(b, Wants(p, b)))[b.cbi[know[l]]] == Symbol(p, b, know[l], c)
    {
      BlankedKnown(f, p, b, t, c, know[l]);
    }
    forall x | 0 <= x < p.n && x !in Columns(b, know)
      ensures Blank(t, Columns(b, Wants(p, b)))[x] == 0 || w[p.n - 1 - b.cbi[Uses(p, b)[j]]][x] == 0
    {
      BlankedOther(f, p, w, b, t, k, j, x);
    }
  }

  lemma DecodeConstant(f: Field, p: Params, w: Matrix, b: Block, t: Vec, k: nat, c: nat, j: nat)
    requires IsField(f) && IsWeights(f, w, p.h, p.n) && Layout(f, p, b, k) && Codable(p, w, b)
    requires Codeword(f, p, w, t, k) && c < b.c && TrueTo(f, p, b, t, c) && j < |Wants(p, b)|
    ensures Constants(f, p, w, b, c)[j] ==
      Dot(f, w[p.n - 1 - b.cbi[Uses(p, b)[j]]], Blank(t, Columns(b, Wants(p, b))), p.n)
  {
    DecodeKnown(f, p, w, b, t, k, c, j);
    ConstantFromKnown(f, p, w, b, c, j, Blank(t, Columns(b, Wants(p, b))));
  }

  lemma ConstantFromKnown(f: Field, p: Params, w: Matrix, b: Block, c: nat, j: nat, v: Vec)
    requires IsField(f) && Codable(p, w, b) && |v| == p.n && c < b.c && j < |Wants(p, b)|
    requires KnownSymbols(f, p, b, Find(p, b, Know, b.n), c, w[p.n - 1 - b.cbi[Uses(p, b)[j]]], v)
    ensures Constants(f, p, w, b, c)[j] == Dot(f, w[p.n - 1 - b.cbi[Uses(p, b)[j]]], v, p.n)
  {
    ConstantIsSum(f, p, w, b, c, j);
    KnownSum(f, p, b, Find(p, b, Know, b.n), c, w[p.n - 1 - b.cbi[Uses(p, b)[j]]], v);
  }

  lemma ConstantIsSum(f: Field, p: Params, w: Matrix, b: Block, c: nat, j: nat)
    requires Codable(p, w, b) && c < b.c && j < |Wants(p, b)|
    ensures var know := Find(p, b, Know, b.n);
      Constants(f, p, w, b, c)[j] ==
      Dot(f, Gather(w[p.n - 1 - b.cbi[Uses(p, b)[j]]], Columns(b, know)), Symbols(p, b, know, c), |know|)
  {
  }

  lemma InColumns(b: Block, slots: seq<nat>, i: nat, x: nat)
    requires forall j :: 0 <= j < |slots| ==> slots[j] < |b.cbi|
    requires i < |b.cbi| && b.cbi[i] == x
    ensures i in slots ==> x in Columns(b, slots)
  {
    if i in slots {
      var l :| 0 <= l < |slots| && slots[l] == i;
      assert Columns(b, slots)[l] == x;
    }
  }

  lemma ResultsDecoded(f: Field, p: Params, w: Matrix, b: Block, mode: char, c: nat, j: nat)
    requires Codable(p, w, b) && c < b.c && j < |Wants(p, b)| && Decoding(mode)
    ensures var a := Equations(w, p.n, Columns(b, Wants(p, b)), Columns(b, Uses(p, b)), Constants(f, p, w, b, c));
      Results(f, p, w, b, mode, c)[j] == Solve(f, a, |Wants(p, b)| + 1)[j][0]
  {
  }

  /** A selected parity equation holds of the codeword, and its constant comes from the symbols that are there. */
  ghost predicate TrueEquation(f: Field, p: Params, w: Matrix, t: Vec, want: seq<nat>, pari: seq<nat>, x: Vec, j: nat) {
    && p.h <= p.n == |t| && |w| == p.h && Shaped(w, p.n)
    && j < |want| == |pari| == |x|
    && p.K() <= pari[j] < p.n
    && Dot(f, w[|t| - 1 - pari[j]], t, |t|) == 0
    && x[j] == Dot(f, w[|t| - 1 - pari[j]], Blank(t, want), |t|)
  }

  lemma RecoveredFrom(f: Field, p: Params, w: Matrix, want: seq<nat>, pari: seq<nat>, x: Vec, t: Vec, i: nat)
    requires IsField(f) && IsWeights(f, w, p.h, p.n) && |t| == p.n && Selection(p.h, p.n, want, pari)
    requires |x| == |want| && VecIn(f, t, |t|) && i < |want|
    requires forall j :: 0 <= j < |want| ==> TrueEquation(f, p, w, t, want, pari, x, j)
    ensures Solve(f, Equations(w, p.n, want, pari, x), |want| + 1)[i][0] == t[want[i]]
  {
    forall j | 0 <= j < |want|
      ensures Dot(f, w[|t| - 1 - pari[j]], t, |t|) == 0
      ensures x[j] == Dot(f, w[|t| - 1 - pari[j]], Blank(t, want), |t|)
    {
      assert TrueEquation(f, p, w, t, want, pari, x, j);
    }
    Recovered(f, w, p.h, want, pari, x, t, i);
  }

  /** Every wanted packet receives its symbol of the codeword. */
  lemma DecodeResult(f: Field, p: Params, w: Matrix, b: Block, t: Vec, k: nat, mode: char, c: nat, j: nat)
    requires IsField(f) && IsWeights(f, w, p.h, p.n) && Layout(f, p, b, k) && Codable(p, w, b)
    requires Codeword(f, p, w, t, k) && c < b.c && TrueTo(f, p, b, t, c) && j < |Wants(p, b)| && Decoding(mode)
    ensures Results(f, p, w, b, mode, c)[j] == t[b.cbi[Wants(p, b)[j]]]
  {
    DecodeSelection(f, p, w, b, k);
    DecodeEquations(f, p, w, b, t, k, c);
    ResultFromEquations(f, p, w, b, t, mode, c, j);
  }

  lemma ResultFromEquations(f: Field, p: Params, w: Matrix, b: Block, t: Vec, mode: char, c: nat, j: nat)
    requires IsField(f) && IsWeights(f, w, p.h, p.n) && Codable(p, w, b) && VecIn(f, t, p.n) && c < b.c
    requires j < |Wants(p, b)| && Decoding(mode) && Selection(p.h, p.n, Columns(b, Wants(p, b)), Columns(b, Uses(p, b)))
    requires forall i :: 0 <= i < |Wants(p, b)| ==>
      TrueEquation(f, p, w, t, Columns(b, Wants(p, b)), Columns(b, Uses(p, b)), Constants(f, p, w, b, c), i)
    ensures Results(f, p, w, b, mode, c)[j] == t[b.cbi[Wants(p, b)[j]]]
  {
    RecoveredFrom(f, p, w, Columns(b, Wants(p, b)), Columns(b, Uses(p, b)), Constants(f, p, w, b, c), t, j);
    ResultsDecoded(f, p, w, b, mode, c, j);
  }

  lemma DecodeEquations(f: Field, p: Params, w: Matrix, b: Block, t: Vec, k: nat, c: nat)
    requires IsField(f) && IsWeights(f, w, p.h, p.n) && Layout(f, p, b, k) && Codable(p, w, b)
    requires Codeword(f, p, w, t, k) && c < b.c && TrueTo(f, p, b, t, c)
    ensures forall j :: 0 <= j < |Wants(p, b)| ==>
      TrueEquation(f, p, w, t, Columns(b, Wants(p, b)), Columns(b, Uses(p, b)), Constants(f, p, w, b, c), j)
  {
    forall j | 0 <= j < |Wants(p, b)|
      ensures TrueEquation(f, p, w, t, Columns(b, Wants(p, b)), Columns(b, Uses(p, b)), Constants(f, p, w, b, c), j)
    {
      DecodeOne(f, p, w, b, t, k, c, j);
    }
  }

  lemma DecodeOne(f: Field, p: Params, w: Matrix, b: Block, t: Vec, k: nat, c: nat, j: nat)
    requires IsField(f) && IsWeights(f, w, p.h, p.n) && Layout(f, p, b, k) && Codable(p, w, b)
    requires Codeword(f, p, w, t, k) && c < b.c && TrueTo(f, p, b, t, c) && j < |Wants(p, b)|
    ensures TrueEquation(f, p, w, t, Columns(b, Wants(p, b)), Columns(b, Uses(p, b)), Constants(f, p, w, b, c), j)
  {
    DecodeConstant(f, p, w, b, t, k, c, j);
    DecodeSelection(f, p, w, b, k);
  }
}
