/** The memcached key: found in the word stream, stored word by word, and compared word by word. */
module KeyCache {
  import opened Common
  import opened WordStream

  predicate IsDelimiter(b: Byte) { b == 0x0d || b == 0x20 }

  /** Find_delimiter: the first delimiter of a word, or 8. */
  method FindDelimiter(w: seq<Byte>) returns (d: nat)
    requires |w| == WordBytes
    ensures d <= WordBytes && (d < WordBytes ==> IsDelimiter(w[d])) && forall i :: 0 <= i < d ==> !IsDelimiter(w[i])
  {
    d := WordBytes;
    var i := WordBytes;
    while i > 0
      invariant 0 <= i <= WordBytes && i <= d <= WordBytes && (d < WordBytes ==> IsDelimiter(w[d]))
      invariant forall j :: i <= j < d ==> !IsDelimiter(w[j])
    {
      i := i - 1;
      if IsDelimiter(w[i]) { d := i; }
    }
  }

  // ---------- Keys as words ----------

  function Pad(x: seq<Byte>): (w: seq<Byte>)
    requires |x| < WordBytes
    ensures |w| == WordBytes && forall i :: 0 <= i < WordBytes ==> w[i] == if i < |x| then x[i] else 0
  {
    x + seq<Byte>(WordBytes - |x|, _ => 0)
  }

  /** The number of words a key takes: there is always a last one that is not full. */
  function WordCount(key: seq<Byte>): nat { |key| / 8 + 1 }

  function WordAt(key: seq<Byte>, i: nat): (w: seq<Byte>)
    requires i < WordCount(key)
    ensures |w| == WordBytes
    ensures forall j :: 0 <= j < WordBytes ==> w[j] == if 8 * i + j < |key| then key[8 * i + j] else 0
  {
    if 8 * i + 8 <= |key| then key[8 * i..8 * i + 8] else Pad(key[8 * i..])
  }

  /** A stored sequence of words begins with the words of a key. */
  predicate Begins(words: seq<seq<Byte>>, key: seq<Byte>) {
    WordCount(key) <= |words| && forall i :: 0 <= i < WordCount(key) ==> words[i] == WordAt(key, i)
  }

  predicate NoNul(key: seq<Byte>) { forall i :: 0 <= i < |key| ==> key[i] != 0 }

  /** Where the shorter key ends, its last word has a zero and the longer key a byte. */
  lemma ShorterDiffers(a: seq<Byte>, b: seq<Byte>)
    requires |b| < |a| && NoNul(a)
    ensures |b| / 8 < WordCount(a) && WordAt(a, |b| / 8) != WordAt(b, |b| / 8)
  {
    var i, j := |b| / 8, |b| % 8;
    assert WordAt(b, i)[j] == 0;
    assert WordAt(a, i)[j] == a[8 * i + j];
  }

  lemma SameLength(words: seq<seq<Byte>>, a: seq<Byte>, b: seq<Byte>)
    requires NoNul(a) && NoNul(b) && Begins(words, a) && Begins(words, b)
    ensures |a| <= |b|
  {
    if |b| < |a| { ShorterDiffers(a, b); }
  }

  /** Words of keys without NUL are prefix-free: whatever follows, they determine the key. */
  lemma BeginsUnique(words: seq<seq<Byte>>, a: seq<Byte>, b: seq<Byte>)
    requires NoNul(a) && NoNul(b) && Begins(words, a) && Begins(words, b)
    ensures a == b
  {
    SameLength(words, a, b);
    SameLength(words, b, a);
    forall k | 0 <= k < |a| ensures a[k] == b[k] {
      var i, j := k / 8, k % 8;
      assert words[i] == WordAt(a, i) && words[i] == WordAt(b, i);
      assert WordAt(a, i)[j] == a[8 * i + j] && WordAt(b, i)[j] == b[8 * i + j];
    }
  }

  // ---------- When two keys have the same words ----------

  /** A byte of the padded key. */
  function ByteOf(key: seq<Byte>, p: nat): Byte { if p < |key| then key[p] else 0 }

  predicate SameWords(a: seq<Byte>, b: seq<Byte>) {
    WordCount(a) == WordCount(b) && forall i :: 0 <= i < WordCount(a) ==> WordAt(a, i) == WordAt(b, i)
  }

  /** A key without its trailing NULs. */
  function Stripped(key: seq<Byte>): seq<Byte> {
    if key != [] && key[|key| - 1] == 0 then Stripped(key[..|key| - 1]) else key
  }

  ghost predicate SameBytes(a: seq<Byte>, b: seq<Byte>) { forall p :: 0 <= p ==> ByteOf(a, p) == ByteOf(b, p) }

  predicate NoTrailingNul(key: seq<Byte>) { key == [] || key[|key| - 1] != 0 }

  lemma {:induction false} StrippedBytes(key: seq<Byte>)
    ensures SameBytes(Stripped(key), key) && NoTrailingNul(Stripped(key))
    decreases |key|
  {
    if key != [] && key[|key| - 1] == 0 {
      var front := key[..|key| - 1];
      StrippedBytes(front);
      forall p | 0 <= p ensures ByteOf(Stripped(key), p) == ByteOf(key, p) {
        assert ByteOf(Stripped(front), p) == ByteOf(front, p);
      }
    }
  }

  lemma StrippedSame(a: seq<Byte>, b: seq<Byte>)
    requires SameBytes(a, b) && NoTrailingNul(a) && NoTrailingNul(b)
    ensures a == b
  {
    assert |a| > 0 ==> ByteOf(a, |a| - 1) == ByteOf(b, |a| - 1);
    assert |b| > 0 ==> ByteOf(a, |b| - 1) == ByteOf(b, |b| - 1);
    forall p | 0 <= p < |a| ensures p < |b| && a[p] == b[p] { assert ByteOf(a, p) == ByteOf(b, p); }
  }

  /** Keys are padded to the same bytes exactly if they differ only in trailing NULs. */
  lemma StrippedExactly(a: seq<Byte>, b: seq<Byte>)
    ensures SameBytes(a, b) <==> Stripped(a) == Stripped(b)
  {
    StrippedBytes(a);
    StrippedBytes(b);
    if SameBytes(a, b) {
      forall p | 0 <= p ensures ByteOf(Stripped(a), p) == ByteOf(Stripped(b), p) {
        assert ByteOf(Stripped(a), p) == ByteOf(a, p) && ByteOf(Stripped(b), p) == ByteOf(b, p) && ByteOf(a, p) == ByteOf(b, p);
      }
      StrippedSame(Stripped(a), Stripped(b));
    }
    if Stripped(a) == Stripped(b) {
      forall p | 0 <= p ensures ByteOf(a, p) == ByteOf(b, p) {
        assert ByteOf(Stripped(a), p) == ByteOf(a, p) && ByteOf(Stripped(b), p) == ByteOf(b, p);
      }
    }
  }

  lemma WordsToBytes(a: seq<Byte>, b: seq<Byte>)
    requires SameWords(a, b)
    ensures SameBytes(a, b)
  {
    forall p | 0 <= p ensures ByteOf(a, p) == ByteOf(b, p) {
      if p < 8 * WordCount(a) {
        var i, j := p / 8, p % 8;
        assert WordAt(a, i)[j] == ByteOf(a, p) && WordAt(b, i)[j] == ByteOf(b, p);
      }
    }
  }

  lemma BytesToWords(a: seq<Byte>, b: seq<Byte>)
    requires WordCount(a) == WordCount(b) && SameBytes(a, b)
    ensures SameWords(a, b)
  {
    forall i | 0 <= i < WordCount(a) ensures WordAt(a, i) == WordAt(b, i) {
      forall j | 0 <= j < WordBytes ensures WordAt(a, i)[j] == WordAt(b, i)[j] {
        assert ByteOf(a, 8 * i + j) == ByteOf(b, 8 * i + j);
      }
    }
  }

  /** Two keys have the same words exactly if they take as many words and differ only in trailing NULs. */
  lemma SameWordsExactly(a: seq<Byte>, b: seq<Byte>)
    ensures SameWords(a, b) <==> WordCount(a) == WordCount(b) && Stripped(a) == Stripped(b)
  {
    StrippedExactly(a, b);
    if SameWords(a, b) { WordsToBytes(a, b); }
    if WordCount(a) == WordCount(b) && SameBytes(a, b) { BytesToWords(a, b); }
  }

  /** A trailing NUL is invisible exactly if it does not start a word. */
  lemma NulHidden(key: seq<Byte>)
    ensures SameWords(key, key + [0]) <==> |key| % 8 < 7
  {
    SameWordsExactly(key, key + [0]);
    assert (key + [0])[..|key|] == key;
    assert WordCount(key + [0]) == WordCount(key) <==> |key| % 8 < 7;
  }

  // ---------- Parsing the key ----------

  /** The first delimiter that the scan of whole words meets is byte d of word k. */
  predicate DelimiterIn(ws: seq<PartWord>, k: nat, d: nat) {
    && k < |ws|
    && IsPacket(ws)
    && d < WordBytes
    && WordOk(ws[k])
    && IsDelimiter(ws[k].data[d])
    && (forall j :: 0 <= j < d ==> !IsDelimiter(ws[k].data[j]))
    && forall i :: 0 <= i < k ==> NoDelimiter(ws[i])
  }

  predicate NoDelimiter(w: PartWord) { |w.data| == WordBytes && forall j :: 0 <= j < WordBytes ==> !IsDelimiter(w.data[j]) }

  /** The words written for the key, with their lengths. */
  predicate IsKey(out: seq<PartWord>, key: seq<Byte>) {
    && |out| == WordCount(key)
    && (forall i :: 0 <= i < |out| ==> out[i].data == WordAt(key, i) && (out[i].end <==> i == |out| - 1))
  }

  /** The bytes of the stream, word by word. */
  lemma WordBytesAt(ws: seq<PartWord>, i: nat, j: nat)
    requires IsPacket(ws) && i < |ws| && j < ws[i].len
    ensures 8 * i + j < |Bytes(ws)| && WordOk(ws[i]) && Bytes(ws)[8 * i + j] == ws[i].data[j]
  {
    SplitBytes(ws, i);
  }

  /** Every byte of the stream is in some word. */
  lemma ByteWord(ws: seq<PartWord>, p: nat)
    requires IsPacket(ws) && p < |Bytes(ws)|
    ensures p / 8 < |ws| && WordOk(ws[p / 8]) && p % 8 < ws[p / 8].len && Bytes(ws)[p] == ws[p / 8].data[p % 8]
  {
    WordsEnough(ws, p / 8);
    var i := p / 8;
    SplitBytes(ws, i);
    if i + 1 < |ws| {
      assert Inner(ws[i]);
    } else {
      assert Bytes(ws[i + 1..]) == [];
    }
    WordBytesAt(ws, i, p % 8);
  }

  predicate FirstDelimiter(b: seq<Byte>, p: nat) {
    p < |b| && IsDelimiter(b[p]) && forall q :: 0 <= q < p ==> !IsDelimiter(b[q])
  }

  /** The delimiter of the scan is the first one of the packet, if the packet has one at all. */
  lemma DelimiterPosition(ws: seq<PartWord>, k: nat, d: nat, p: nat)
    requires DelimiterIn(ws, k, d) && FirstDelimiter(Bytes(ws), p)
    ensures 8 * k + d == p && d < ws[k].len
  {
    ByteWord(ws, p);
    assert !NoDelimiter(ws[p / 8]);
    assert k <= p / 8;
    if k + 1 < |ws| { assert Inner(ws[k]); }
    WordBytesAt(ws, k, d);
  }

  /** The words before the delimiter's word, and its own front padded, are the words of the key. */
  lemma KeyWordsAt(ws: seq<PartWord>, k: nat, d: nat, key: seq<Byte>, i: nat)
    requires DelimiterIn(ws, k, d) && d < ws[k].len && i <= k && 8 * k + d < |Bytes(ws)| && key == Bytes(ws)[..8 * k + d]
    ensures WordCount(key) == k + 1
    ensures WordAt(key, i) == if i < k then ws[i].data else Pad(ws[k].data[..d])
  {
    if i < k { assert Inner(ws[i]); }
    var w := if i < k then ws[i].data else Pad(ws[k].data[..d]);
    forall j | 0 <= j < WordBytes ensures WordAt(key, i)[j] == w[j] {
      if 8 * i + j < 8 * k + d { WordBytesAt(ws, i, j); }
    }
  }

  /** What goes on after the key: a packet, a leftover word whose length and end mark were never set, or nothing. */
  datatype Rest = Aligned(words: seq<PartWord>) | Stray(data: seq<Byte>) | Nothing

  /** The key words as they are written: whole words, and the front of the delimiter's word. */
  predicate KeyWritten(key: seq<PartWord>, ws: seq<PartWord>, k: nat, d: nat)
    requires DelimiterIn(ws, k, d)
  {
    && |key| == k + 1
    && (forall i :: 0 <= i < k ==> key[i] == PartWord(ws[i].data, ws[i].len, false))
    && key[k] == PartWord(Pad(ws[k].data[..d]), d, true)
  }

  lemma KeyWrittenIsKey(key: seq<PartWord>, ws: seq<PartWord>, k: nat, d: nat)
    requires DelimiterIn(ws, k, d) && d < ws[k].len && KeyWritten(key, ws, k, d)
    ensures 8 * k + d < |Bytes(ws)| && IsKey(key, Bytes(ws)[..8 * k + d])
  {
    WordBytesAt(ws, k, d);
    var bytes := Bytes(ws)[..8 * k + d];
    KeyWordsAt(ws, k, d, bytes, 0);
    forall i | 0 <= i <= k ensures key[i].data == WordAt(bytes, i) { KeyWordsAt(ws, k, d, bytes, i); }
  }

  /** The loop that looks for the delimiter and writes the key words. */
  method ScanKey(ws: seq<PartWord>) returns (key: seq<PartWord>, k: nat, d: nat)
    requires IsPacket(ws)
    ensures k <= |ws|
    ensures k < |ws| ==> DelimiterIn(ws, k, d) && KeyWritten(key, ws, k, d)
    ensures k == |ws| ==> (forall i :: 0 <= i < |ws| ==> NoDelimiter(ws[i])) && |key| == |ws|
  {
    key, k, d := [], 0, WordBytes;
    while k < |ws|
      invariant k <= |ws| && |key| == k
      invariant forall i :: 0 <= i < k ==> NoDelimiter(ws[i]) && key[i] == PartWord(ws[i].data, ws[i].len, false)
    {
      if k + 1 < |ws| { assert Inner(ws[k]); }
      d := FindDelimiter(ws[k].data);
      if d < WordBytes {
        key := key + [PartWord(Pad(ws[k].data[..d]), d, true)];
        return;
      }
      key := key + [PartWord(ws[k].data, ws[k].len, false)];
      k := k + 1;
    }
  }

  /**
   * Parse_Key: the key goes out word by word. The rest of the stream goes out after it, unless the delimiter is in the
   * last word: then what is left of that word goes out as a stray word, if there is anything left.
   */
  method ParseKey(ws: seq<PartWord>) returns (found: bool, key: seq<PartWord>, rest: Rest, ghost k: nat, ghost d: nat)
    requires IsPacket(ws)
    ensures found <==> !(forall i :: 0 <= i < |ws| ==> NoDelimiter(ws[i]))
    ensures found ==> DelimiterIn(ws, k, d) && KeyWritten(key, ws, k, d)
    ensures found && d < ws[k].len ==> 8 * k + d < |Bytes(ws)| && IsKey(key, Bytes(ws)[..8 * k + d])
    ensures found && k + 1 < |ws| ==>
      rest.Aligned? && IsPacket(rest.words) && 8 * k + d < |Bytes(ws)| && Bytes(rest.words) == Bytes(ws)[8 * k + d + 1..]
    ensures found && k + 1 == |ws| ==> rest == if ws[k].len > d + 1 then Stray(ws[k].data[d + 1..]) else Nothing
    ensures !found ==> rest == Nothing
  {
    var at, delimiter;
    key, at, delimiter := ScanKey(ws);
    k, d := at, delimiter;
    found := at < |ws|;
    rest := Nothing;
    if !found { return; }
    assert !NoDelimiter(ws[at]);
    if delimiter < ws[at].len { KeyWrittenIsKey(key, ws, at, delimiter); }
    if at + 1 < |ws| {
      assert Inner(ws[at]);
      var out := After(ws, at, delimiter);
      rest := Aligned(out);
    } else if ws[at].len > delimiter + 1 {
      rest := Stray(ws[at].data[delimiter + 1..]);
    }
  }

  /** The stream after byte d of word k. */
  method After(ws: seq<PartWord>, k: nat, d: nat) returns (out: seq<PartWord>)
    requires IsPacket(ws) && k + 1 < |ws| && d < WordBytes
    ensures IsPacket(out) && 8 * k + d + 1 <= |Bytes(ws)| && Bytes(out) == Bytes(ws)[8 * k + d + 1..]
  {
    TailPacket(ws, k + 1);
    DropBytes(ws, k, d + 1);
    if d == 7 {
      out := ws[k + 1..];
      assert ws[k].data[8..] == [];
    } else {
      out := Align(ws[k].data, ws[k + 1..], d + 1);
    }
  }

  // ---------- The cache ----------

  const KeyWordsMax: nat := 32

  /** A slot of the cache: whether it is valid, and its key words. Words beyond the key are left from earlier keys. */
  datatype Slot = Slot(valid: bool, words: seq<seq<Byte>>)

  datatype Request = Store(key: seq<Byte>) | Lookup(key: seq<Byte>)

  datatype Answer = Stored | Hit | Miss | Collision | Ignored

  predicate Fits(key: seq<Byte>) { NoNul(key) && WordCount(key) <= KeyWordsMax }

  predicate SlotOk(s: Slot) { |s.words| == KeyWordsMax }

  /** The words of a key. */
  function KeyWords(key: seq<Byte>): (r: seq<seq<Byte>>)
    ensures |r| == WordCount(key) && forall i :: 0 <= i < |r| ==> r[i] == WordAt(key, i)
  {
    seq<seq<Byte>>(WordCount(key), i requires 0 <= i < WordCount(key) => WordAt(key, i))
  }

  /** The slot index is computed from the key words. */
  type Hash = seq<seq<Byte>> -> nat

  function SlotFor(hash: Hash, key: seq<Byte>): nat { hash(KeyWords(key)) }

  class Cache {
    const hash: Hash
    const memory: array<Slot>
    ghost var last: map<nat, seq<Byte>>

    /** The slots that are valid hold the words of the last key stored in them. */
    ghost predicate Valid()
      reads this, memory
    {
      && memory.Length > 0
      && (forall words :: hash(words) < memory.Length)
      && (forall i :: 0 <= i < memory.Length ==> SlotOk(memory[i]) && (memory[i].valid <==> i in last))
      && (forall i :: 0 <= i < memory.Length && i in last ==> Fits(last[i]) && Begins(memory[i].words, last[i]))
    }

    constructor (h: Hash, n: nat)
      requires n > 0 && forall words :: h(words) < n
      ensures Valid() && hash == h && last == map[] && fresh(memory)
    {
      hash := h;
      memory := new Slot[n](_ => Slot(false, seq(KeyWordsMax, _ => [])));
      last := map[];
    }

    /** Process_Key for a packet that stores: the words overwrite the slot from the front. */
    method StoreKey(i: nat, words: seq<PartWord>, ghost key: seq<Byte>)
      requires Valid() && i < memory.Length && IsKey(words, key) && Fits(key)
      modifies memory, this`last
      ensures Valid() && last == old(last)[i := key]
    {
      var slot := memory[i].words;
      for c := 0 to |words|
        invariant |slot| == KeyWordsMax
        invariant forall j :: 0 <= j < c ==> slot[j] == WordAt(key, j)
      {
        slot := slot[c := words[c].data];
      }
      memory[i] := Slot(true, slot);
      last := last[i := key];
    }

    /** Process_Key for a get: every word of the key is compared. */
    method CompareKey(i: nat, words: seq<PartWord>, ghost key: seq<Byte>) returns (a: Answer)
      requires Valid() && i < memory.Length && IsKey(words, key) && Fits(key)
      ensures a == if i !in last then Miss else if last[i] == key then Hit else Collision
    {
      if !memory[i].valid { return Miss; }
      a := Hit;
      for c := 0 to |words|
        invariant a == Hit <==> forall j :: 0 <= j < c ==> memory[i].words[j] == WordAt(key, j)
        invariant a == Hit || a == Collision
      {
        if memory[i].words[c] != words[c].data { a := Collision; }
      }
      if a == Hit { BeginsUnique(memory[i].words, last[i], key); }
    }

    /** The index of the key as the parser delivers it. */
    method IndexOf(words: seq<PartWord>, ghost key: seq<Byte>) returns (i: nat)
      requires IsKey(words, key)
      ensures i == SlotFor(hash, key)
    {
      var data: seq<seq<Byte>> := [];
      for c := 0 to |words|
        invariant |data| == c && forall j :: 0 <= j < c ==> data[j] == WordAt(key, j)
      {
        data := data + [words[c].data];
      }
      assert data == KeyWords(key);
      i := hash(data);
    }

    /** One request, with the key as the parser delivers it. */
    method Process(get: bool, words: seq<PartWord>, ghost r: Request) returns (a: Answer)
      requires Valid() && get == r.Lookup? && IsKey(words, r.key) && Fits(r.key)
      modifies memory, this`last
      ensures Valid() && last == if r.Store? then old(last)[SlotFor(hash, r.key) := r.key] else old(last)
      ensures a == AnswerTo(hash, old(last), r)
    {
      var i := IndexOf(words, r.key);
      if get {
        a := CompareKey(i, words, r.key);
      } else {
        StoreKey(i, words, r.key);
        a := Stored;
      }
    }
  }

  /** The answer to a request, given the last key stored in each slot. */
  function AnswerTo(hash: Hash, last: map<nat, seq<Byte>>, r: Request): Answer {
    if r.Store? then Stored
    else if SlotFor(hash, r.key) !in last then Miss
    else if last[SlotFor(hash, r.key)] == r.key then Hit
    else Collision
  }

  // ---------- Requests as bytes ----------

  /** The bytes before the first delimiter. */
  function KeyOf(b: seq<Byte>): Option<seq<Byte>> {
    if b == [] then None
    else if IsDelimiter(b[0]) then Some([])
    else match KeyOf(b[1..]) case None => None case Some(key) => Some([b[0]] + key)
  }

  lemma {:induction false} KeyOfFirst(b: seq<Byte>)
    ensures KeyOf(b).Some? ==> FirstDelimiter(b, |KeyOf(b).value|) && KeyOf(b).value == b[..|KeyOf(b).value|]
    decreases |b|
  {
    if b != [] && !IsDelimiter(b[0]) {
      KeyOfFirst(b[1..]);
      if KeyOf(b).Some? {
        var p := |KeyOf(b[1..]).value|;
        assert b[..p + 1] == [b[0]] + b[1..][..p];
        forall q | 0 <= q < p + 1 ensures !IsDelimiter(b[q]) { assert q > 0 ==> b[q] == b[1..][q - 1]; }
      }
    }
  }

  const RequestOffset: nat := 50

  /** The request in a frame, from its bytes: after the headers a command, and a key up to the first delimiter. */
  function RequestOf(b: seq<Byte>): Option<Request> {
    if |b| <= RequestOffset + 8 then None
    else
      match CommandAt(b[RequestOffset..RequestOffset + 8])
      case None => None
      case Some(c) =>
        match KeyOf(b[RequestOffset + c.1..])
        case None => None
        case Some(key) => if c.0 == Get then Some(Lookup(key)) else if c.0 == Delete then None else Some(Store(key))
  }

  /** Frames with an unknown command, or with a set, value or get whose key ends and fits. */
  predicate Acceptable(b: seq<Byte>) {
    && |b| > RequestOffset + 8
    && var c := CommandAt(b[RequestOffset..RequestOffset + 8]);
       c.Some? ==> RequestOf(b).Some? && Fits(RequestOf(b).value.key)
  }

  // ---------- Whole runs ----------

  /** The last key stored in a slot by the first n frames. */
  function LastStored(hash: Hash, rs: seq<Option<Request>>, n: nat, i: nat): Option<seq<Byte>>
    requires n <= |rs|
  {
    if n == 0 then None
    else
      match rs[n - 1]
      case Some(Store(key)) => if SlotFor(hash, key) == i then Some(key) else LastStored(hash, rs, n - 1, i)
      case _ => LastStored(hash, rs, n - 1, i)
  }

  /** What a frame must be answered, from the requests alone. */
  function Due(hash: Hash, rs: seq<Option<Request>>, n: nat): Answer
    requires n < |rs|
  {
    match rs[n]
    case None => Ignored
    case Some(Store(_)) => Stored
    case Some(Lookup(key)) =>
      match LastStored(hash, rs, n, SlotFor(hash, key))
      case None => Miss
      case Some(stored) => if stored == key then Hit else Collision
  }

  ghost predicate Remembers(hash: Hash, rs: seq<Option<Request>>, n: nat, last: map<nat, seq<Byte>>)
    requires n <= |rs|
  {
    forall i :: LastStored(hash, rs, n, i) == if i in last then Some(last[i]) else None
  }

  lemma RemembersNext(hash: Hash, rs: seq<Option<Request>>, n: nat, last: map<nat, seq<Byte>>)
    requires n < |rs| && Remembers(hash, rs, n, last)
    ensures match rs[n]
      case None => Due(hash, rs, n) == Ignored && Remembers(hash, rs, n + 1, last)
      case Some(r) =>
        && Due(hash, rs, n) == AnswerTo(hash, last, r)
        && Remembers(hash, rs, n + 1, if r.Store? then last[SlotFor(hash, r.key) := r.key] else last)
  {
  }

  lemma SliceSlice(b: seq<Byte>, m: nat, n: nat)
    requires m + n <= |b|
    ensures b[m..][n..] == b[m + n..]
  {
  }

  /** From a frame to its request line. */
  method ParseToRequest(ws: seq<PartWord>) returns (out: seq<PartWord>)
    requires IsPacket(ws) && |Bytes(ws)| > RequestOffset + 8
    ensures IsPacket(out) && Bytes(out) == Bytes(ws)[RequestOffset..]
  {
    WordsEnough(ws, 7);
    out := ParseHeaders(ws);
    WordsEnough(out, 2);
    out := ParseMemcachedHeader(out);
    SliceSlice(Bytes(ws), HeaderBytes, 8);
  }

  lemma FirstWord(ws: seq<PartWord>)
    requires IsPacket(ws) && |ws| >= 2
    ensures |Bytes(ws)| >= 8 && ws[0].data == Bytes(ws)[..8]
  {
    SplitBytes(ws, 0);
    assert Inner(ws[0]);
    assert Bytes(ws[..0]) == [];
    assert ([] + ws[0].data) + Bytes(ws[1..]) == ws[0].data + Bytes(ws[1..]);
  }

  /** From a frame to its command, through the stages before the key. */
  method ParseFrame(ws: seq<PartWord>) returns (command: Option<Command>, out: seq<PartWord>)
    requires IsPacket(ws) && |Bytes(ws)| > RequestOffset + 8
    ensures match CommandAt(Bytes(ws)[RequestOffset..RequestOffset + 8])
      case None => command == None
      case Some(c) => command == Some(c.0) && IsPacket(out) && Bytes(out) == Bytes(ws)[RequestOffset + c.1..]
  {
    var line := ParseToRequest(ws);
    WordsEnough(line, 1);
    FirstWord(line);
    assert Bytes(line)[..8] == Bytes(ws)[RequestOffset..RequestOffset + 8];
    command, out := ParseCommand(line);
    ghost var c := CommandAt(line[0].data);
    if c.Some? { SliceSlice(Bytes(ws), RequestOffset, c.value.1); }
  }

  lemma KeyOfPacket(ws: seq<PartWord>, key: seq<PartWord>, k: nat, d: nat)
    requires DelimiterIn(ws, k, d) && KeyWritten(key, ws, k, d) && KeyOf(Bytes(ws)).Some?
    ensures IsKey(key, KeyOf(Bytes(ws)).value)
  {
    KeyOfFirst(Bytes(ws));
    DelimiterPosition(ws, k, d, |KeyOf(Bytes(ws)).value|);
    KeyWrittenIsKey(key, ws, k, d);
  }

  /** A packet with a delimiter among its bytes has one in its words. */
  lemma KeyFound(ws: seq<PartWord>)
    requires IsPacket(ws) && KeyOf(Bytes(ws)).Some?
    ensures !(forall i :: 0 <= i < |ws| ==> NoDelimiter(ws[i]))
  {
    KeyOfFirst(Bytes(ws));
    var p := |KeyOf(Bytes(ws)).value|;
    ByteWord(ws, p);
    assert !NoDelimiter(ws[p / 8]);
  }

  /** The key of a request, through the parser. */
  method RequestKey(ws: seq<PartWord>) returns (key: seq<PartWord>)
    requires IsPacket(ws) && KeyOf(Bytes(ws)).Some?
    ensures IsKey(key, KeyOf(Bytes(ws)).value)
  {
    KeyFound(ws);
    var found, rest;
    ghost var k, d;
    found, key, rest, k, d := ParseKey(ws);
    KeyOfPacket(ws, key, k, d);
  }

  /** One frame through the whole pipeline up to the cache. */
  method ServeFrame(cache: Cache, ws: seq<PartWord>) returns (a: Answer)
    requires cache.Valid() && IsPacket(ws) && Acceptable(Bytes(ws))
    modifies cache.memory, cache`last
    ensures cache.Valid()
    ensures match RequestOf(Bytes(ws))
      case None => a == Ignored && cache.last == old(cache.last)
      case Some(r) =>
        && cache.last == (if r.Store? then old(cache.last)[SlotFor(cache.hash, r.key) := r.key] else old(cache.last))
        && a == AnswerTo(cache.hash, old(cache.last), r)
  {
    var command, out := ParseFrame(ws);
    if command.None? { return Ignored; }
    var key := RequestKey(out);
    ghost var r := RequestOf(Bytes(ws)).value;
    a := cache.Process(command.value == Get, key, r);
  }

  /** The next frame of a run is answered as it is due. */
  method ServeNext(cache: Cache, ws: seq<PartWord>, ghost n: nat, ghost rs: seq<Option<Request>>) returns (a: Answer)
    requires cache.Valid() && IsPacket(ws) && Acceptable(Bytes(ws))
    requires n < |rs| && rs[n] == RequestOf(Bytes(ws)) && Remembers(cache.hash, rs, n, cache.last)
    modifies cache.memory, cache`last
    ensures cache.Valid() && Remembers(cache.hash, rs, n + 1, cache.last) && a == Due(cache.hash, rs, n)
  {
    RemembersNext(cache.hash, rs, n, cache.last);
    a := ServeFrame(cache, ws);
  }

  /**
   * Over any run of frames with set, value and get requests, a get is a hit exactly if the last store to its slot
   * had the same key, and a miss exactly if there was none.
   */
  method Serve(hash: Hash, slots: nat, frames: seq<seq<PartWord>>, ghost rs: seq<Option<Request>>) returns (out: seq<Answer>)
    requires slots > 0 && forall words :: hash(words) < slots
    requires forall i :: 0 <= i < |frames| ==> IsPacket(frames[i]) && Acceptable(Bytes(frames[i]))
    requires |rs| == |frames| && forall i :: 0 <= i < |rs| ==> rs[i] == RequestOf(Bytes(frames[i]))
    ensures |out| == |frames| && forall i :: 0 <= i < |frames| ==> out[i] == Due(hash, rs, i)
  {
    var cache := new Cache(hash, slots);
    out := [];
    for n := 0 to |frames|
      invariant cache.Valid() && cache.hash == hash && fresh(cache) && fresh(cache.memory)
      invariant Remembers(cache.hash, rs, n, cache.last)
      invariant |out| == n && forall i :: 0 <= i < n ==> out[i] == Due(hash, rs, i)
    {
      var a := ServeNext(cache, frames[n], n, rs);
      out := out + [a];
    }
  }
}
