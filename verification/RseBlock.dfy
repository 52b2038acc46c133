/**
 * The block coder on values: which packets a call knows, wants and uses as parity, what it computes
 * for each symbol position, and what it leaves in the block.
 */
module RseBlock {
  import opened Bits
  import opened Algebra
  import opened Elimination
  import opened ErasureCode

  datatype Flag = Null | Known | Wanted | Ignore | Genned | Genold

  /** struct fec_block: packet count, symbols per packet, and per slot its codeword column, length, status and data. */
  datatype Block = Block(n: nat, c: nat, cbi: seq<nat>, plen: seq<nat>, pstat: seq<Flag>, pdata: seq<seq<nat>>)

  /** The compile-time parameters: FEC_MAX_H, FEC_MAX_N, FEC_EXTRA_COLS, FEC_MAX_COLS and the bits of a symbol. */
  datatype Params = Params(h: nat, n: nat, extra: nat, cols: nat, bits: nat)
  {
    /** FEC_MAX_K: columns below this are data, the others parity. */
    function K(): nat requires h <= n { n - h }
  }

  ghost predicate BlockOk(p: Params, f: Field, b: Block) {
    && p.h <= p.n && b.n <= |b.cbi| == |b.plen| == |b.pstat| == |b.pdata|
    && (forall i :: 0 <= i < b.n ==> b.cbi[i] < p.n)
    && (forall i :: 0 <= i < |b.pdata| ==> VecIn(f, b.pdata[i], p.cols))
  }

  // ---------- fec_block_types_find ----------

  datatype Kind = Want | Know | Pari

  predicate IsKind(p: Params, b: Block, kind: Kind, i: nat)
    requires p.h <= p.n && i < |b.cbi| == |b.pstat|
  {
    match kind
    case Want => b.pstat[i] == Wanted
    case Know => b.pstat[i] == Known || b.pstat[i] == Genned
    case Pari => b.cbi[i] >= p.K() && b.pstat[i] != Ignore && b.pstat[i] != Genold
  }

  /** The slots of a kind among the first i, in order. */
  function Find(p: Params, b: Block, kind: Kind, i: nat): (r: seq<nat>)
    requires p.h <= p.n && i <= |b.cbi| == |b.pstat|
    ensures forall x :: x in r <==> 0 <= x < i && IsKind(p, b, kind, x)
    ensures Distinct(r) && forall j :: 0 <= j < |r| ==> r[j] < i && IsKind(p, b, kind, r[j])
  {
    if i == 0 then [] else Find(p, b, kind, i - 1) + if IsKind(p, b, kind, i - 1) then [i - 1] else []
  }

  lemma FindNext(p: Params, b: Block, kind: Kind, i: nat)
    requires p.h <= p.n && i < |b.cbi| == |b.pstat|
    ensures Find(p, b, kind, i + 1) == Find(p, b, kind, i) + if IsKind(p, b, kind, i) then [i] else []
  {
  }

  function Columns(b: Block, slots: seq<nat>): seq<nat>
    requires forall j :: 0 <= j < |slots| ==> slots[j] < |b.cbi|
  {
    seq<nat>(|slots|, j requires 0 <= j < |slots| => b.cbi[slots[j]])
  }

  /** fec_block_check and fec_block_types_check: 0 when coding may go ahead. */
  function Check(p: Params, size: nat, b: Block): int
    requires p.h <= p.n && b.n <= |b.cbi| == |b.pstat|
  {
    var know, want, pari :=
      |Find(p, b, Know, b.n)|, |Find(p, b, Want, b.n)|, |Find(p, b, Pari, b.n)|;
    if b.n >= size || b.c > p.cols || b.n < 1 || b.c < 1 then INVALID_PARAMS
    else if know < 1 || want < 1 || pari < want || pari > p.h then MISSING_DATA
    else 0
  }

  const INVALID_PARAMS := -1
  const MISSING_DATA := -2

  // ---------- One symbol position ----------

  /** The symbol of a length: its j-th digit, counted from the least significant. */
  function LengthDigit(p: Params, len: nat, j: nat): nat { (len / Pow2(p.bits * j)) % Pow2(p.bits) }

  /** The symbol of a known packet: its data, zero padding, or a piece of its length. */
  function Symbol(p: Params, b: Block, i: nat, c: nat): nat
    requires p.h <= p.n && i < |b.cbi| == |b.plen| == |b.pdata| && c < |b.pdata[i]| && c < b.c
  {
    if c >= b.c - p.extra && b.cbi[i] < p.K() then LengthDigit(p, b.plen[i], b.c - c - 1)
    else if b.plen[i] > c then b.pdata[i][c] else 0
  }

  function Symbols(p: Params, b: Block, slots: seq<nat>, c: nat): Vec
    requires p.h <= p.n && |b.cbi| == |b.plen| == |b.pdata| && c < b.c
    requires forall j :: 0 <= j < |slots| ==> slots[j] < |b.cbi| && c < |b.pdata[slots[j]]|
  {
    seq<nat>(|slots|, j requires 0 <= j < |slots| => Symbol(p, b, slots[j], c))
  }

  /** matrix_multiply: the sum over the known packets for the parity equation of column col. */
  function Constant(f: Field, p: Params, w: Matrix, b: Block, col: nat, c: nat): nat
    requires p.h <= p.n && b.n <= |b.cbi| == |b.plen| == |b.pdata| == |b.pstat| && c < b.c
    requires |w| == p.h && Shaped(w, p.n) && p.K() <= col < p.n
    requires forall i :: 0 <= i < b.n ==> b.cbi[i] < p.n && c < |b.pdata[i]|
  {
    var know := Find(p, b, Know, b.n);
    Dot(f, Gather(w[p.n - 1 - col], Columns(b, know)), Symbols(p, b, know, c), |know|)
  }

  predicate Codable(p: Params, w: Matrix, b: Block) {
    && p.h <= p.n && |w| == p.h && Shaped(w, p.n)
    && b.n <= |b.cbi| == |b.plen| == |b.pdata| == |b.pstat| && b.c <= p.cols
    && (forall i :: 0 <= i < b.n ==> b.cbi[i] < p.n)
    && (forall i :: 0 <= i < |b.pdata| ==> |b.pdata[i]| == p.cols)
    && |Find(p, b, Want, b.n)| <= |Find(p, b, Pari, b.n)|
  }

  function Wants(p: Params, b: Block): seq<nat>
    requires p.h <= p.n && b.n <= |b.cbi| == |b.pstat|
  {
    Find(p, b, Want, b.n)
  }

  /** The parity slots used: only as many as there are wanted packets. */
  function Uses(p: Params, b: Block): seq<nat>
    requires p.h <= p.n && b.n <= |b.cbi| == |b.pstat| && |Find(p, b, Want, b.n)| <= |Find(p, b, Pari, b.n)|
  {
    Find(p, b, Pari, b.n)[..|Wants(p, b)|]
  }

  function Constants(f: Field, p: Params, w: Matrix, b: Block, c: nat): (d: Vec)
    requires Codable(p, w, b) && c < b.c
    ensures |d| == |Wants(p, b)|
  {
    var pari := Find(p, b, Pari, b.n);
    seq<nat>(|Wants(p, b)|, j requires 0 <= j < |Wants(p, b)| => Constant(f, p, w, b, b.cbi[pari[j]], c))
  }

  lemma UsesInBounds(p: Params, w: Matrix, b: Block)
    requires Codable(p, w, b)
    ensures InBounds(|w|, p.n, Columns(b, Wants(p, b)), Columns(b, Uses(p, b)))
  {
  }

  /** The equations for the wanted symbols at one position. */
  function WantedEquations(f: Field, p: Params, w: Matrix, b: Block, c: nat): (a: Matrix)
    requires Codable(p, w, b) && c < b.c
    ensures |a| == |Wants(p, b)| && Shaped(a, |a| + 1)
  {
    UsesInBounds(p, w, b);
    Equations(w, p.n, Columns(b, Wants(p, b)), Columns(b, Uses(p, b)), Constants(f, p, w, b, c))
  }

  function Decoding(mode: char): bool { mode == 'd' || mode == 'D' }

  /** The symbols computed at position c, one per wanted packet. */
  function Results(f: Field, p: Params, w: Matrix, b: Block, mode: char, c: nat): (r: Vec)
    requires Codable(p, w, b) && c < b.c
    ensures |r| == |Wants(p, b)|
  {
    var d := Constants(f, p, w, b, c);
    var m := |d|;
    if Decoding(mode) then
      var s := Solve(f, WantedEquations(f, p, w, b, c), m + 1);
      seq<nat>(m, i requires 0 <= i < m => s[i][0])
    else d
  }

  // ---------- write_accumulated_sum_into_wanted_packets ----------

  function NewFlag(b: Block, flag: Flag, c: nat, mode: char): Flag {
    if c == b.c - 1 && (mode == 'd' || mode == 'e') then Genned else flag
  }

  /** What a length symbol is worth at its place. */
  function DigitValue(p: Params, x: nat, e: nat): nat { x * Pow2(p.bits * e) }

  /** The length of a packet after symbol x at position c: reset at the start, then gathered from its last symbols. */
  function NewLength(p: Params, b: Block, col: nat, len: nat, x: nat, c: nat): nat
    requires p.h <= p.n && c < b.c
  {
    var l0 := if c == b.c - 1 && p.extra == 0 then b.c else len;
    var l1 := if col < p.K() && c == 0 then 0 else l0;
    if col < p.K() && c >= b.c - p.extra then l1 + DigitValue(p, x, b.c - c - 1) else l1
  }

  function WriteOne(p: Params, b: Block, q: nat, x: nat, c: nat, mode: char): Block
    requires p.h <= p.n && q < |b.cbi| == |b.plen| == |b.pdata| == |b.pstat| && c < b.c && c < |b.pdata[q]|
  {
    var row: seq<nat> := b.pdata[q][c := x];
    b.(pdata := b.pdata[q := row], pstat := b.pstat[q := NewFlag(b, b.pstat[q], c, mode)],
       plen := b.plen[q := NewLength(p, b, b.cbi[q], b.plen[q], x, c)])
  }

  /** The first j wanted packets written. */
  function WriteSome(p: Params, b: Block, want: seq<nat>, x: Vec, c: nat, mode: char, j: nat): (r: Block)
    requires p.h <= p.n && |b.cbi| == |b.plen| == |b.pdata| == |b.pstat| && c < b.c && j <= |want| == |x|
    requires forall i :: 0 <= i < |want| ==> want[i] < |b.cbi|
    requires forall i :: 0 <= i < |b.pdata| ==> c < |b.pdata[i]|
    ensures r.n == b.n && r.c == b.c && r.cbi == b.cbi
    ensures |r.plen| == |b.plen| && |r.pdata| == |b.pdata| && |r.pstat| == |b.pstat|
    ensures forall i :: 0 <= i < |b.pdata| ==> |r.pdata[i]| == |b.pdata[i]|
  {
    if j == 0 then b
    else WriteOne(p, WriteSome(p, b, want, x, c, mode, j - 1), want[j - 1], x[j - 1], c, mode)
  }

  ghost predicate Sheet(p: Params, b: Block, want: seq<nat>, xs: seq<Vec>) {
    && p.h <= p.n && |b.cbi| == |b.plen| == |b.pdata| == |b.pstat| && |xs| == b.c && Distinct(want)
    && (forall i :: 0 <= i < |want| ==> want[i] < |b.cbi|)
    && (forall i :: 0 <= i < |b.pdata| ==> b.c <= |b.pdata[i]|)
    && forall c :: 0 <= c < |xs| ==> |xs[c]| == |want|
  }

  /** The block after the first c symbol positions were written from the sheet of results. */
  ghost function WriteAll(p: Params, b: Block, want: seq<nat>, xs: seq<Vec>, mode: char, c: nat): (r: Block)
    requires Sheet(p, b, want, xs) && c <= b.c
    ensures r.n == b.n && r.c == b.c && r.cbi == b.cbi
    ensures |r.plen| == |b.plen| && |r.pdata| == |b.pdata| && |r.pstat| == |b.pstat|
    ensures forall i :: 0 <= i < |b.pdata| ==> |r.pdata[i]| == |b.pdata[i]|
  {
    if c == 0 then b
    else WriteSome(p, WriteAll(p, b, want, xs, mode, c - 1), want, xs[c - 1], c - 1, mode, |want|)
  }

  ghost function ResultSheet(f: Field, p: Params, w: Matrix, b: Block, mode: char): (xs: seq<Vec>)
    requires Codable(p, w, b)
    ensures Sheet(p, b, Wants(p, b), xs)
    ensures forall c :: 0 <= c < b.c ==> xs[c] == Results(f, p, w, b, mode, c)
  {
    seq<Vec>(b.c, c requires 0 <= c < b.c => Results(f, p, w, b, mode, c))
  }

  /** rse_code on a block that passes its checks. */
  ghost function Coded(f: Field, p: Params, w: Matrix, b: Block, mode: char): Block
    requires Codable(p, w, b)
  {
    WriteAll(p, b, Wants(p, b), ResultSheet(f, p, w, b, mode), mode, b.c)
  }
}
