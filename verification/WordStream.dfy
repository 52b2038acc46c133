/** Packets as streams of eight-byte words, and the stages of the memcached pipeline that drop bytes from the front. */
module WordStream {
  import opened Common

  type Byte = nat

  lemma Halves(a: seq<Byte>, r: nat, n: nat)
    requires r <= n <= |a|
    ensures a[..r] + a[r..n] == a[..n]
  {
  }

  const WordBytes: nat := 8

  /** A word of which the first len bytes count; the last word of a packet is marked. */
  datatype PartWord = PartWord(data: seq<Byte>, len: nat, end: bool)

  predicate WordOk(w: PartWord) { |w.data| == WordBytes && 1 <= w.len <= WordBytes }

  predicate Inner(w: PartWord) { |w.data| == WordBytes && w.len == WordBytes && !w.end }

  /** All words are full and unmarked, except that the last is marked and may be shorter. */
  predicate IsPacket(ws: seq<PartWord>) {
    && ws != []
    && (forall i :: 0 <= i < |ws| - 1 ==> Inner(ws[i]))
    && WordOk(ws[|ws| - 1])
    && ws[|ws| - 1].end
  }

  predicate AllInner(ws: seq<PartWord>) { forall i :: 0 <= i < |ws| ==> Inner(ws[i]) }

  function Used(w: PartWord): seq<Byte> { if w.len <= |w.data| then w.data[..w.len] else w.data }

  /** The bytes of a stream. */
  function Bytes(ws: seq<PartWord>): seq<Byte> {
    if ws == [] then [] else Bytes(ws[..|ws| - 1]) + Used(ws[|ws| - 1])
  }

  lemma BytesPush(ws: seq<PartWord>, w: PartWord)
    ensures Bytes(ws + [w]) == Bytes(ws) + Used(w)
  {
    assert (ws + [w])[..|ws|] == ws;
  }

  lemma BytesNone(a: seq<PartWord>)
    ensures a + [] == a && Bytes(a) + Bytes([]) == Bytes(a)
  {
  }

  lemma {:induction false} BytesAppend(a: seq<PartWord>, b: seq<PartWord>)
    ensures Bytes(a + b) == Bytes(a) + Bytes(b)
    decreases |b|
  {
    if b == [] {
      BytesNone(a);
    } else {
      var front, last := b[..|b| - 1], b[|b| - 1];
      BytesAppend(a, front);
      BytesLast(a, b);
      Assoc(Bytes(a), Bytes(front), Used(last));
    }
  }

  lemma BytesLast(a: seq<PartWord>, b: seq<PartWord>)
    requires b != []
    ensures Bytes(a + b) == Bytes(a + b[..|b| - 1]) + Used(b[|b| - 1])
  {
    assert (a + b)[..|a + b| - 1] == a + b[..|b| - 1];
  }

  lemma {:induction false} InnerBytes(ws: seq<PartWord>)
    requires AllInner(ws)
    ensures |Bytes(ws)| == 8 * |ws|
    decreases |ws|
  {
    if ws != [] { InnerBytes(ws[..|ws| - 1]); }
  }

  // ---------- Re-alignment ----------

  /** The word put together from what is kept of one word and the front of the next. */
  function Joined(keep: seq<Byte>, w: PartWord, r: nat): PartWord
    requires 0 < r < WordBytes && |keep| == WordBytes - r && |w.data| == WordBytes
  {
    PartWord(keep + w.data[..r], if w.len >= r then WordBytes else WordBytes - r + w.len, w.len <= r)
  }

  /** What is kept for the next word, padded; it counts as the last word if it is written at all. */
  function Kept(w: PartWord, r: nat): PartWord
    requires 0 < r < WordBytes && |w.data| == WordBytes && r < w.len
  {
    PartWord(w.data[r..] + seq(r, _ => 0), w.len - r, true)
  }

  /** Two words are taken apart at r: the first gives its end, the second its front. */
  lemma JoinBytes(out: seq<PartWord>, keep: seq<Byte>, w: PartWord, r: nat, n: nat)
    requires 0 < r < WordBytes && |keep| == WordBytes - r && |w.data| == WordBytes && r <= n <= WordBytes && r <= w.len
    ensures Bytes(out + [Joined(keep, w, r)]) + w.data[r..n] == (Bytes(out) + keep) + w.data[..n]
  {
    var j := Joined(keep, w, r);
    BytesPush(out, j);
    assert Used(j) == keep + w.data[..r];
    Assoc(Bytes(out), keep, w.data[..r]);
    Assoc(Bytes(out) + keep, w.data[..r], w.data[r..n]);
    Halves(w.data, r, n);
  }

  /** An inner word gives an inner word, and leaves the rest of its bytes. */
  lemma JoinInner(out: seq<PartWord>, keep: seq<Byte>, w: PartWord, r: nat)
    requires 0 < r < WordBytes && |keep| == WordBytes - r && Inner(w)
    ensures Inner(Joined(keep, w, r)) && |w.data[r..]| == WordBytes - r
    ensures Bytes(out + [Joined(keep, w, r)]) + w.data[r..] == (Bytes(out) + keep) + Used(w)
  {
    JoinBytes(out, keep, w, r, WordBytes);
    assert w.data[r..WordBytes] == w.data[r..] && w.data[..WordBytes] == Used(w);
  }

  lemma KeptBytes(w: PartWord, r: nat)
    requires 0 < r < WordBytes && WordOk(w) && r < w.len
    ensures Used(Kept(w, r)) == w.data[r..w.len] && WordOk(Kept(w, r))
  {
  }

  /** A last word that reaches beyond r gives a full word and a marked one. */
  lemma JoinLong(out: seq<PartWord>, keep: seq<Byte>, w: PartWord, r: nat)
    requires 0 < r < WordBytes && |keep| == WordBytes - r && WordOk(w) && AllInner(out) && w.len > r
    ensures var last := (out + [Joined(keep, w, r)]) + [Kept(w, r)];
      IsPacket(last) && Bytes(last) == (Bytes(out) + keep) + Used(w)
  {
    var k := Kept(w, r);
    JoinBytes(out, keep, w, r, w.len);
    BytesPush(out + [Joined(keep, w, r)], k);
    KeptBytes(w, r);
    assert Inner(Joined(keep, w, r));
  }

  lemma JoinedShort(keep: seq<Byte>, w: PartWord, r: nat)
    requires 0 < r < WordBytes && |keep| == WordBytes - r && WordOk(w) && w.len <= r
    ensures Used(Joined(keep, w, r)) == keep + Used(w) && WordOk(Joined(keep, w, r)) && Joined(keep, w, r).end
  {
  }

  /** A shorter one gives one marked word. */
  lemma JoinShort(out: seq<PartWord>, keep: seq<Byte>, w: PartWord, r: nat)
    requires 0 < r < WordBytes && |keep| == WordBytes - r && WordOk(w) && AllInner(out) && w.len <= r
    ensures IsPacket(out + [Joined(keep, w, r)]) && Bytes(out + [Joined(keep, w, r)]) == (Bytes(out) + keep) + Used(w)
  {
    JoinedShort(keep, w, r);
    BytesPush(out, Joined(keep, w, r));
    Assoc(Bytes(out), keep, Used(w));
  }

  /** The alignment loop: the rest of a first word, and then all following words, shifted by r bytes. */
  method Align(first: seq<Byte>, ws: seq<PartWord>, r: nat) returns (out: seq<PartWord>)
    requires |first| == WordBytes && IsPacket(ws) && 0 < r < WordBytes
    ensures IsPacket(out) && Bytes(out) == first[r..] + Bytes(ws)
  {
    out := [];
    var keep := first[r..];
    var i := 0;
    while !ws[i].end
      invariant 0 <= i < |ws| && AllInner(out) && |keep| == WordBytes - r
      invariant Bytes(out) + keep == first[r..] + Bytes(ws[..i])
      decreases |ws| - i
    {
      JoinInner(out, keep, ws[i], r);
      BytesTo(first[r..], ws, i);
      out, keep := out + [Joined(keep, ws[i], r)], ws[i].data[r..];
      i := i + 1;
    }
    BytesTo(first[r..], ws, i);
    assert ws[..i + 1] == ws;
    if ws[i].len > r {
      JoinLong(out, keep, ws[i], r);
      out := (out + [Joined(keep, ws[i], r)]) + [Kept(ws[i], r)];
    } else {
      JoinShort(out, keep, ws[i], r);
      out := out + [Joined(keep, ws[i], r)];
    }
  }

  lemma BytesTo(front: seq<Byte>, ws: seq<PartWord>, i: nat)
    requires i < |ws|
    ensures (front + Bytes(ws[..i])) + Used(ws[i]) == front + Bytes(ws[..i + 1])
  {
    assert ws[..i] + [ws[i]] == ws[..i + 1];
    BytesPush(ws[..i], ws[i]);
    Assoc(front, Bytes(ws[..i]), Used(ws[i]));
  }

  // ---------- The stages ----------

  lemma TailPacket(ws: seq<PartWord>, k: nat)
    requires IsPacket(ws) && k < |ws|
    ensures IsPacket(ws[k..]) && AllInner(ws[..k])
  {
  }

  lemma BytesAround(a: seq<PartWord>, w: PartWord, b: seq<PartWord>)
    ensures Bytes((a + [w]) + b) == (Bytes(a) + Used(w)) + Bytes(b)
  {
    BytesAppend(a + [w], b);
    BytesPush(a, w);
  }

  lemma Around(ws: seq<PartWord>, k: nat)
    requires k < |ws|
    ensures (ws[..k] + [ws[k]]) + ws[k + 1..] == ws
  {
  }

  /** The bytes before, in and after a word. */
  lemma SplitBytes(ws: seq<PartWord>, k: nat)
    requires IsPacket(ws) && k < |ws|
    ensures |Bytes(ws[..k])| == 8 * k && WordOk(ws[k])
    ensures Bytes(ws) == (Bytes(ws[..k]) + Used(ws[k])) + Bytes(ws[k + 1..])
    ensures k + 1 < |ws| ==> Used(ws[k]) == ws[k].data
  {
    InnerBytes(ws[..k]);
    Around(ws, k);
    BytesAround(ws[..k], ws[k], ws[k + 1..]);
    if k + 1 < |ws| { assert Inner(ws[k]); }
  }

  /** The number of words of a packet with more than n words' worth of bytes. */
  lemma WordsEnough(ws: seq<PartWord>, n: nat)
    requires IsPacket(ws) && |Bytes(ws)| > 8 * n
    ensures |ws| > n
  {
    var k := |ws| - 1;
    SplitBytes(ws, k);
    assert Bytes(ws[k + 1..]) == [];
  }

  lemma DropFront(a: seq<Byte>, b: seq<Byte>, c: seq<Byte>, r: nat)
    requires r <= |b|
    ensures ((a + b) + c)[|a| + r..] == b[r..] + c
  {
  }

  /** Dropping k words and r bytes of the next one. */
  lemma DropBytes(ws: seq<PartWord>, k: nat, r: nat)
    requires IsPacket(ws) && k + 1 < |ws| && r <= WordBytes
    ensures 8 * k + r <= |Bytes(ws)|
    ensures Bytes(ws)[8 * k + r..] == ws[k].data[r..] + Bytes(ws[k + 1..])
  {
    SplitBytes(ws, k);
    DropFront(Bytes(ws[..k]), ws[k].data, Bytes(ws[k + 1..]), r);
  }

  const HeaderBytes: nat := 42

  /** Parse_Eth_Hdr: the Ethernet, IP and UDP headers are dropped. */
  method ParseHeaders(ws: seq<PartWord>) returns (out: seq<PartWord>)
    requires IsPacket(ws) && |ws| >= 7
    ensures IsPacket(out) && |Bytes(ws)| >= HeaderBytes && Bytes(out) == Bytes(ws)[HeaderBytes..]
  {
    var left, i := HeaderBytes, 0;
    while left >= WordBytes
      invariant i <= 5 && left == HeaderBytes - 8 * i >= 0
    {
      left, i := left - WordBytes, i + 1;
    }
    TailPacket(ws, i + 1);
    DropBytes(ws, i, left);
    out := Align(ws[i].data, ws[i + 1..], left);
  }

  lemma Behind(a: seq<Byte>, b: seq<Byte>, all: seq<Byte>, n: nat)
    requires all == ([] + a) + b && n <= |a|
    ensures |all| >= n && all[n..] == a[n..] + b
  {
    assert [] + a == a;
  }

  /** Dropping bytes of the first word, or all of it. */
  lemma WithinFirst(ws: seq<PartWord>, n: nat)
    requires IsPacket(ws) && |ws| >= 2 && n <= WordBytes
    ensures IsPacket(ws[1..]) && |ws[0].data| == WordBytes && n <= |Bytes(ws)|
    ensures Bytes(ws)[n..] == ws[0].data[n..] + Bytes(ws[1..])
  {
    TailPacket(ws, 1);
    assert Inner(ws[0]) && Used(ws[0]) == ws[0].data;
    BytesAround([], ws[0], ws[1..]);
    assert ([] + [ws[0]]) + ws[1..] == ws;
    Behind(ws[0].data, Bytes(ws[1..]), Bytes(ws), n);
  }

  /** All words but the first are passed on. */
  method PassOn(ws: seq<PartWord>) returns (out: seq<PartWord>)
    requires |ws| >= 2
    ensures out == ws[1..]
  {
    out := [];
    var i := 1;
    while i < |ws|
      invariant 1 <= i <= |ws| && out == ws[1..i]
    {
      out := out + [ws[i]];
      i := i + 1;
    }
  }

  /** Parse_Memcached_Hdr: the first word is kept as metadata and not passed on. */
  method ParseMemcachedHeader(ws: seq<PartWord>) returns (out: seq<PartWord>)
    requires IsPacket(ws) && |ws| >= 2
    ensures IsPacket(out) && |Bytes(ws)| >= 8 && Bytes(out) == Bytes(ws)[8..]
  {
    WithinFirst(ws, WordBytes);
    assert ws[0].data[WordBytes..] == [];
    out := PassOn(ws);
  }

  datatype Command = Set | Get | Delete | Value

  /** The command in the first four bytes, and the bytes it takes up in the stream. */
  function CommandAt(w: seq<Byte>): Option<(Command, nat)>
    requires |w| == WordBytes
  {
    if w[..4] == [0x73, 0x65, 0x74, 0x20] then Some((Set, 4))
    else if w[..4] == [0x67, 0x65, 0x74, 0x20] then Some((Get, 4))
    else if w[..4] == [0x64, 0x65, 0x6c, 0x65] then Some((Delete, 7))
    else if w[..4] == [0x56, 0x41, 0x4c, 0x55] then Some((Value, 6))
    else None
  }

  /** Parse_CMD: the command word is dropped, up to and including the space after it; other packets are consumed. */
  method ParseCommand(ws: seq<PartWord>) returns (command: Option<Command>, out: seq<PartWord>)
    requires IsPacket(ws) && |ws| >= 2
    ensures match CommandAt(ws[0].data)
      case None => command == None && out == []
      case Some(c) => command == Some(c.0) && IsPacket(out) && c.1 <= |Bytes(ws)| && Bytes(out) == Bytes(ws)[c.1..]
  {
    var c := CommandAt(ws[0].data);
    if c.None? { return None, []; }
    out := DropFromFirst(ws, c.value.1);
    command := Some(c.value.0);
  }

  /** Remove: the fields between key and length are dropped from packets that carry data. */
  method RemoveFlags(command: Command, ws: seq<PartWord>) returns (out: seq<PartWord>)
    requires IsPacket(ws) && |ws| >= 2 && (command == Set || command == Value)
    ensures IsPacket(out) && FlagBytes(command) <= |Bytes(ws)| && Bytes(out) == Bytes(ws)[FlagBytes(command)..]
  {
    out := DropFromFirst(ws, FlagBytes(command));
  }

  function FlagBytes(command: Command): nat { if command == Set then 4 else 2 }

  /** Bytes of the first word are dropped. */
  method DropFromFirst(ws: seq<PartWord>, n: nat) returns (out: seq<PartWord>)
    requires IsPacket(ws) && |ws| >= 2 && 0 < n < WordBytes
    ensures IsPacket(out) && n <= |Bytes(ws)| && Bytes(out) == Bytes(ws)[n..]
  {
    WithinFirst(ws, n);
    out := Align(ws[0].data, ws[1..], n);
  }
}
