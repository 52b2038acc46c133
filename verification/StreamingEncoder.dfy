/**
 * The FPGA encoder core: packets stream through once, and running parity is kept in buffers that
 * are reused from block to block without being cleared.
 */
module StreamingEncoder {
  import opened Bits
  import opened GfTables
  import opened Algebra
  import opened ErasureCode
  import opened Elimination
  import opened MatrixSolver
  import opened GeneratorMatrix

  // ---------- What the buffers should hold ----------

  function ByteAt(packet: seq<nat>, offset: nat): nat { if offset < |packet| then packet[offset] else 0 }

  /** The parity symbol of one row at one offset: packets are padded with zeros. */
  function ParityAt(f: Field, row: Vec, packets: seq<seq<nat>>, offset: nat): nat
    requires |packets| <= |row|
  {
    if packets == [] then 0
    else
      var l := |packets| - 1;
      f.add(ParityAt(f, row, packets[..l], offset), f.mul(ByteAt(packets[l], offset), row[l]))
  }

  /** The same with the length of each packet in place of its bytes; offset 0 is the low byte. */
  function LengthParityAt(f: Field, row: Vec, packets: seq<seq<nat>>, offset: nat): nat
    requires |packets| <= |row|
  {
    if packets == [] then 0
    else
      var l := |packets| - 1;
      f.add(LengthParityAt(f, row, packets[..l], offset), f.mul(LengthByte(|packets[l]|, offset), row[l]))
  }

  function LengthByte(len: nat, offset: nat): nat { (len / Pow2(8 * offset)) % 256 }

  function MaxLength(packets: seq<seq<nat>>): nat {
    if packets == [] then 0
    else
      var l := |packets| - 1;
      if |packets[l]| > MaxLength(packets[..l]) then |packets[l]| else MaxLength(packets[..l])
  }

  lemma {:induction false} BeyondMax(f: Field, row: Vec, packets: seq<seq<nat>>, offset: nat)
    requires IsField(f) && |packets| <= |row| && VecIn(f, row, |row|) && MaxLength(packets) <= offset
    ensures ParityAt(f, row, packets, offset) == 0
  {
    if packets != [] {
      var l := |packets| - 1;
      BeyondMax(f, row, packets[..l], offset);
      Zero(f, row[l]);
      Zero(f, 0);
    }
  }

  ghost predicate Bytes(f: Field, packet: seq<nat>) { forall i :: 0 <= i < |packet| ==> packet[i] < f.size }

  lemma {:induction false} ParityIn(f: Field, row: Vec, packets: seq<seq<nat>>, offset: nat)
    requires IsField(f) && |packets| <= |row| && VecIn(f, row, |row|)
    requires forall q :: 0 <= q < |packets| ==> Bytes(f, packets[q])
    ensures ParityAt(f, row, packets, offset) < f.size
  {
    if packets != [] {
      var l := |packets| - 1;
      ParityIn(f, row, packets[..l], offset);
      Laws(f, ByteAt(packets[l], offset), row[l], 0);
      Laws(f, ParityAt(f, row, packets[..l], offset), f.mul(ByteAt(packets[l], offset), row[l]), 0);
    }
  }

  // ---------- Input words ----------

  /** One bus word: eight bytes of which the first count belong to the packet. */
  datatype BusWord = BusWord(data: seq<nat>, count: nat, last: bool)

  /** A frame on the bus: full words, then one marked last with one to eight bytes. */
  ghost predicate Frame(f: Field, words: seq<BusWord>) {
    && |words| > 0
    && (forall i :: 0 <= i < |words| ==> |words[i].data| == 8 && VecIn(f, words[i].data, 8))
    && (forall i :: 0 <= i < |words| ==> words[i].last == (i == |words| - 1))
    && (forall i :: 0 <= i < |words| - 1 ==> words[i].count == 8)
    && 1 <= words[|words| - 1].count <= 8
  }

  /** The bytes of the first n words. */
  function Payload(words: seq<BusWord>, n: nat): seq<nat>
    requires n <= |words| && forall i :: 0 <= i < n ==> words[i].count <= |words[i].data|
  {
    if n == 0 then [] else Payload(words, n - 1) + words[n - 1].data[..words[n - 1].count]
  }

  lemma {:induction false} PayloadShape(f: Field, words: seq<BusWord>, n: nat)
    requires Frame(f, words) && n <= |words|
    ensures Bytes(f, Payload(words, n))
    ensures |Payload(words, n)| == if n < |words| then 8 * n else 8 * (n - 1) + words[n - 1].count
  {
    if n != 0 { PayloadShape(f, words, n - 1); }
  }

  lemma ParityAppend(f: Field, row: Vec, packets: seq<seq<nat>>, packet: seq<nat>, offset: nat)
    requires |packets| < |row|
    ensures ParityAt(f, row, packets + [packet], offset) ==
      f.add(ParityAt(f, row, packets, offset), f.mul(ByteAt(packet, offset), row[|packets|]))
    ensures LengthParityAt(f, row, packets + [packet], offset) ==
      f.add(LengthParityAt(f, row, packets, offset), f.mul(LengthByte(|packet|, offset), row[|packets|]))
  {
    assert (packets + [packet])[..|packets|] == packets;
  }

  lemma MaxAppend(packets: seq<seq<nat>>, packet: seq<nat>)
    ensures MaxLength(packets + [packet]) == if |packet| > MaxLength(packets) then |packet| else MaxLength(packets)
  {
    assert (packets + [packet])[..|packets|] == packets;
  }

  /** Past the end of the packet nothing has to be added. */
  lemma ParityPadding(f: Field, row: Vec, packets: seq<seq<nat>>, packet: seq<nat>, offset: nat)
    requires IsField(f) && |packets| < |row| && VecIn(f, row, |row|) && |packet| <= offset
    requires forall q :: 0 <= q < |packets| ==> Bytes(f, packets[q])
    ensures ParityAt(f, row, packets + [packet], offset) == ParityAt(f, row, packets, offset)
  {
    ParityAppend(f, row, packets, packet, offset);
    ParityIn(f, row, packets, offset);
    Zero(f, row[|packets|]);
    Zero(f, ParityAt(f, row, packets, offset));
  }

  /** One row of a buffer after a symbol went through it. */
  twostate predicate Updated(f: Field, buffer: array2<nat>, offset: nat, h: nat, x: nat, clear: bool, g: Vec)
    requires offset < buffer.Length0 && h <= buffer.Length1 && h <= |g|
    reads buffer
  {
    forall i :: 0 <= i < h ==>
      buffer[offset, i] < f.size &&
      buffer[offset, i] == f.add(if clear then 0 else old(buffer[offset, i]), f.mul(x, g[i]))
  }

  /** Incremental_encode on one row of a buffer, with the generator column of the packet. */
  method IncrementalEncode(t: Tables, ghost f: Field, buffer: array2<nat>, offset: nat, h: nat, x: nat, clear: bool, g: Vec)
    requires Computes(t, f) && offset < buffer.Length0 && h <= buffer.Length1 && x < f.size && VecIn(f, g, h)
    requires !clear ==> forall i :: 0 <= i < h ==> buffer[offset, i] < f.size
    modifies buffer
    ensures OnlyRow(buffer, offset) && Updated(f, buffer, offset, h, x, clear, g)
  {
    for i := 0 to h
      invariant OnlyRow(buffer, offset)
      invariant forall r :: i <= r < h ==> buffer[offset, r] == old(buffer[offset, r])
      invariant forall r :: 0 <= r < i ==>
        buffer[offset, r] < f.size &&
        buffer[offset, r] == f.add(if clear then 0 else old(buffer[offset, r]), f.mul(x, g[r]))
    {
      var y := Multiply(t, f, x, g[i]);
      buffer[offset, i] := Add(t, f, if clear then 0 else buffer[offset, i], y);
    }
  }

  function Column(gen: Matrix, h: nat, q: nat): Vec
    requires h <= |gen| && forall i :: 0 <= i < h ==> q < |gen[i]|
  {
    seq<nat>(h, i requires 0 <= i < h => gen[i][q])
  }

  /** FEC_ETH_HEADER_SIZE / 8. */
  const HEADER_SIZE: nat := 14

  /** The shape of an emitted frame: exactly its final word is marked last. */
  ghost predicate OutputFrame(out: seq<BusWord>) {
    && |out| > 0 && (forall i :: 0 <= i < |out| ==> |out[i].data| == 8 && out[i].count <= 8)
    && forall i :: 0 <= i < |out| ==> out[i].last == (i == |out| - 1)
  }

  /** The words emitted so far spell out a prefix of the content. */
  ghost predicate Packed(out: seq<BusWord>, content: seq<nat>) {
    && |content| > 0 && |out| <= (|content| - 1) / 8 + 1
    && (forall i :: 0 <= i < |out| ==> |out[i].data| == 8 && out[i].count <= 8)
    && (forall i :: 0 <= i < |out| ==> out[i].last == (i == (|content| - 1) / 8))
    && Payload(out, |out|) == content[..if 8 * |out| < |content| then 8 * |out| else |content|]
  }

  lemma PackedNext(out: seq<BusWord>, w: BusWord, content: seq<nat>)
    requires Packed(out, content) && 8 * |out| < |content| && |w.data| == 8
    requires w.last == (|out| == (|content| - 1) / 8)
    requires w.count == if 8 * |out| + 8 <= |content| then 8 else |content| - 8 * |out|
    requires forall b :: 0 <= b < w.count ==> w.data[b] == content[8 * |out| + b]
    ensures Packed(out + [w], content)
  {
    PayloadSame(out, out + [w], |out|);
    var n := 8 * |out|;
    assert w.data[..w.count] == content[n..n + w.count];
    assert content[..n] + content[n..n + w.count] == content[..n + w.count];
  }

  class Encoder {
    const t: Tables
    ghost const f: Field
    const h: nat
    const k: nat
    const maxSize: nat
    const gen: Matrix
    const parity: array2<nat>
    const lengthParity: array2<nat>
    var header: seq<nat>
    var index: nat
    var maxLength: nat
    /** The packets of the current block so far. */
    ghost var sent: seq<seq<nat>>

    /** Buffers start with whatever they held before. */
    constructor (t: Tables, ghost f: Field, gen: Matrix, h: nat, k: nat, maxSize: nat)
      requires Computes(t, f) && f.size == 256 && 0 < h <= |gen| && 0 < k && MatrixIn(f, gen, |gen|, k)
      ensures Valid() && fresh(parity) && fresh(lengthParity) && sent == [] && index == 0
      ensures this.t == t && this.f == f && this.gen == gen && this.h == h && this.k == k && this.maxSize == maxSize
    {
      this.t, this.f, this.gen, this.h, this.k, this.maxSize := t, f, gen, h, k, maxSize;
      parity := new nat[maxSize, h];
      lengthParity := new nat[2, h];
      header := seq<nat>(HEADER_SIZE, _ => 0);
      index, maxLength, sent := 0, 0, [];
    }

    ghost predicate Static()
      reads t.exp, t.log, t.inv
    {
      && Computes(t, f) && f.size == 256 && 0 < h <= |gen| && 0 < k && MatrixIn(f, gen, |gen|, k)
      && parity.Length0 == maxSize && parity.Length1 == h && lengthParity.Length0 == 2 && lengthParity.Length1 == h
      && parity != lengthParity
    }

    /** Every offset below the longest packet so far holds the parity of the packets so far. */
    ghost predicate Running()
      reads this, parity, lengthParity
    {
      && h <= |gen| && parity.Length1 == lengthParity.Length1 == h && lengthParity.Length0 == 2
      && maxLength <= parity.Length0 && (forall i :: 0 <= i < h ==> |sent| <= |gen[i]|)
      && (forall o, i :: 0 <= o < maxLength && 0 <= i < h ==> parity[o, i] == ParityAt(f, gen[i], sent, o))
      && (forall o, i :: 0 <= o < 2 && 0 <= i < h ==> lengthParity[o, i] == LengthParityAt(f, gen[i], sent, o))
    }

    ghost predicate Valid()
      reads this, parity, lengthParity, t.exp, t.log, t.inv
    {
      && Static() && index < k + h && |header| == HEADER_SIZE
      && |sent| == (if index < k then index else k)
      && (forall q :: 0 <= q < |sent| ==> Bytes(f, sent[q]))
      && (index > 0 ==> Running() && maxLength == MaxLength(sent))
    }

    /** The buffer while packet goes in: offsets below n are done, the others still hold the old parity. */
    ghost predicate Partial(packet: seq<nat>, n: nat)
      reads this`sent, this`maxLength, parity
    {
      && h <= |gen| && parity.Length1 == h && n <= parity.Length0 && maxLength <= parity.Length0
      && (forall i :: 0 <= i < h ==> |sent| < |gen[i]|)
      && (forall o, i :: 0 <= o < n && 0 <= i < h ==> parity[o, i] == ParityAt(f, gen[i], sent + [packet], o))
      && (forall o, i :: n <= o < maxLength && 0 <= i < h ==> parity[o, i] == ParityAt(f, gen[i], sent, o))
    }

    method EncodeByte(x: nat, offset: nat, ghost packet: seq<nat>)
      requires Static() && index < k && |sent| == index && offset < maxSize
      requires (forall q :: 0 <= q < |sent| ==> Bytes(f, sent[q])) && maxLength == MaxLength(sent)
      requires offset < |packet| && packet[offset] == x < f.size && Partial(packet, offset)
      modifies parity
      ensures Partial(packet, offset + 1)
    {
      var clear := index == 0 || offset >= maxLength;
      forall i | 0 <= i < h
        ensures ParityAt(f, gen[i], sent, offset) < f.size
        ensures clear ==> ParityAt(f, gen[i], sent, offset) == 0
        ensures ParityAt(f, gen[i], sent + [packet], offset) ==
          f.add(ParityAt(f, gen[i], sent, offset), f.mul(x, gen[i][index]))
      {
        ParityIn(f, gen[i], sent, offset);
        if clear { BeyondMax(f, gen[i], sent, offset); }
        ParityAppend(f, gen[i], sent, packet, offset);
      }
      IncrementalEncode(t, f, parity, offset, h, x, clear, Column(gen, h, index));
    }

    /** Between packets of a block: what the byte loop relies on. */
    ghost predicate Open()
      reads this`sent, this`maxLength, this`index, t.exp, t.log, t.inv
    {
      && Static() && index < k && |sent| == index && maxLength == MaxLength(sent)
      && forall q :: 0 <= q < |sent| ==> Bytes(f, sent[q])
    }

    /** The eight bytes of one bus word. */
    method EncodeWord(w: BusWord, wordOffset: nat, ghost packet: seq<nat>)
      requires Open() && |header| == HEADER_SIZE && |w.data| == 8 && VecIn(f, w.data, 8) && w.count <= 8
      requires 8 * wordOffset + w.count <= |packet| <= maxSize && Partial(packet, 8 * wordOffset)
      requires forall b :: 0 <= b < w.count ==> packet[8 * wordOffset + b] == w.data[b]
      modifies this`header, parity
      ensures |header| == HEADER_SIZE && Partial(packet, 8 * wordOffset + w.count)
    {
      for b := 0 to 8
        invariant |header| == HEADER_SIZE
        invariant Partial(packet, 8 * wordOffset + if b < w.count then b else w.count)
      {
        var offset := 8 * wordOffset + b;
        if offset < HEADER_SIZE { header := header[offset := w.data[b]]; }
        if b < w.count { EncodeByte(w.data[b], offset, packet); }
      }
    }

    method EncodeWords(words: seq<BusWord>, ghost packet: seq<nat>) returns (length: nat)
      requires Open() && |header| == HEADER_SIZE && Frame(f, words) && packet == Payload(words, |words|)
      requires |packet| <= maxSize && Partial(packet, 0)
      modifies this`header, parity
      ensures |header| == HEADER_SIZE && length == |packet| && Partial(packet, length)
    {
      length := 0;
      var n := 0;
      PayloadShape(f, words, |words|);
      while n < |words|
        invariant 0 <= n <= |words| && |header| == HEADER_SIZE
        invariant length == |Payload(words, n)| && Partial(packet, length)
      {
        PayloadShape(f, words, n);
        PayloadShape(f, words, n + 1);
        PayloadPrefix(f, words, n);
        EncodeWord(words[n], n, packet);
        length := length + words[n].count;
        n := n + 1;
      }
    }

    /** The two length symbols of the packet. */
    method EncodeLength(length: nat, ghost packet: seq<nat>)
      requires Static() && index < k && |sent| == index && length == |packet|
      requires index > 0 ==> forall o, i :: 0 <= o < 2 && 0 <= i < h ==>
        lengthParity[o, i] == LengthParityAt(f, gen[i], sent, o)
      modifies lengthParity
      ensures forall o, i :: 0 <= o < 2 && 0 <= i < h ==>
        lengthParity[o, i] == LengthParityAt(f, gen[i], sent + [packet], o)
    {
      for o := 0 to 2
        invariant forall r, i :: 0 <= r < o && 0 <= i < h ==>
          lengthParity[r, i] == LengthParityAt(f, gen[i], sent + [packet], r)
        invariant forall r, i :: o <= r < 2 && 0 <= i < h ==> lengthParity[r, i] == old(lengthParity[r, i])
      {
        forall i | 0 <= i < h
          ensures LengthParityAt(f, gen[i], sent, o) < f.size
          ensures LengthParityAt(f, gen[i], sent + [packet], o) ==
            f.add(LengthParityAt(f, gen[i], sent, o), f.mul(LengthByte(length, o), gen[i][index]))
        {
          LengthParityIn(f, gen[i], sent, o);
          ParityAppend(f, gen[i], sent, packet, o);
        }
        IncrementalEncode(t, f, lengthParity, o, h, LengthByte(length, o), index == 0, Column(gen, h, index));
      }
    }

    /** The symbols of a packet go into both buffers. */
    method EncodeSymbols(words: seq<BusWord>, ghost packet: seq<nat>) returns (length: nat)
      requires Valid() && index < k && Frame(f, words) && packet == Payload(words, |words|) && |packet| <= maxSize
      modifies this`header, this`maxLength, parity, lengthParity
      ensures Open() && |header| == HEADER_SIZE && length == |packet| && Partial(packet, length)
      ensures LengthsCover(packet)
    {
      if index == 0 { maxLength := 0; }
      length := EncodeWords(words, packet);
      EncodeLength(length, packet);
    }

    /** The length parity covers one more packet. */
    ghost predicate LengthsCover(packet: seq<nat>)
      reads this`sent, lengthParity
    {
      && h <= |gen| && lengthParity.Length0 == 2 && lengthParity.Length1 == h && (forall i :: 0 <= i < h ==> |sent| < |gen[i]|)
      && forall o, i :: 0 <= o < 2 && 0 <= i < h ==> lengthParity[o, i] == LengthParityAt(f, gen[i], sent + [packet], o)
    }

    /** Encode_packet: the running parity now covers one more packet, whatever the buffers held before. */
    method EncodePacket(words: seq<BusWord>)
      requires Valid() && index < k && Frame(f, words) && |Payload(words, |words|)| <= maxSize
      modifies this, parity, lengthParity
      ensures Valid() && index == old(index) + 1 && sent == old(sent) + [Payload(words, |words|)]
    {
      ghost var packet := Payload(words, |words|);
      PayloadShape(f, words, |words|);
      var length := EncodeSymbols(words, packet);
      CloseParity(packet, length);
      MaxAppend(sent, packet);
      if length > maxLength { maxLength := length; }
      sent := sent + [packet];
      index := index + 1;
    }

    /** The bytes of a parity frame: the last packet's header, the length parity high byte first, the parity. */
    function OutByte(offset: nat): nat
      requires |header| == HEADER_SIZE && k <= index < k + h && maxLength <= parity.Length0
      requires parity.Length1 == lengthParity.Length1 == h && lengthParity.Length0 == 2
      reads this, parity, lengthParity
    {
      if offset < HEADER_SIZE then header[offset]
      else if offset < HEADER_SIZE + 2 then lengthParity[1 - (offset - HEADER_SIZE), index - k]
      else if offset < HEADER_SIZE + 2 + maxLength then parity[offset - HEADER_SIZE - 2, index - k]
      else 0
    }

    /** What the frame for parity row j of the packets sent so far must contain after its header. */
    ghost function ParityBytes(j: nat): seq<nat>
      requires j < |gen| && |sent| <= |gen[j]|
      reads this
    {
      [LengthParityAt(f, gen[j], sent, 1), LengthParityAt(f, gen[j], sent, 0)] +
      seq<nat>(MaxLength(sent), o requires 0 <= o reads this requires j < |gen| && |sent| <= |gen[j]| =>
        ParityAt(f, gen[j], sent, o))
    }

    method OutputWord(n: nat, length: nat) returns (w: BusWord)
      requires Valid() && k <= index && length == maxLength + HEADER_SIZE + 2 && 8 * n < length
      ensures |w.data| == 8 && w.last == (n == (length - 1) / 8) && w.count == (if 8 * n + 8 <= length then 8 else length - 8 * n)
      ensures forall b :: 0 <= b < 8 ==> w.data[b] == OutByte(8 * n + b)
    {
      var data: seq<nat> := [];
      for b := 0 to 8
        invariant |data| == b && forall i :: 0 <= i < b ==> data[i] == OutByte(8 * n + i)
      {
        data := data + [OutByte(8 * n + b)];
      }
      var last := n == (length - 1) / 8;
      w := BusWord(data, if last && length % 8 != 0 then length % 8 else 8, last);
    }

    lemma ContentIsParity(content: seq<nat>)
      requires Valid() && k <= index && content == header + ParityBytes(index - k)
      ensures |content| == maxLength + HEADER_SIZE + 2
      ensures forall o :: 0 <= o < |content| ==> content[o] == OutByte(o)
    {
      var j := index - k;
      var bytes := ParityBytes(j);
      assert |bytes| == maxLength + 2;
      forall o | 0 <= o < |content| ensures content[o] == OutByte(o) {
        if o >= HEADER_SIZE + 2 {
          var r: nat := o - HEADER_SIZE - 2;
          assert parity[r, j] == ParityAt(f, gen[j], sent, r) == bytes[r + 2];
        }
      }
    }

    method EmitFrame(ghost content: seq<nat>) returns (out: seq<BusWord>)
      requires Valid() && k <= index && |content| == maxLength + HEADER_SIZE + 2
      requires forall o :: 0 <= o < |content| ==> content[o] == OutByte(o)
      ensures OutputFrame(out) && Payload(out, |out|) == content
    {
      var length := maxLength + HEADER_SIZE + 2;
      out := [];
      while 8 * |out| < length
        invariant Packed(out, content)
        decreases length - 8 * |out|
      {
        var w := OutputWord(|out|, length);
        PackedNext(out, w, content);
        out := out + [w];
      }
    }

    /** Output_parity_packet: emits the parity of the whole block and moves on, ending the block after the last one. */
    method OutputParity() returns (out: seq<BusWord>)
      requires Valid() && k <= index
      modifies this
      ensures Valid() && header == old(header) && OutputFrame(out)
      ensures Payload(out, |out|) == old(header) + old(ParityBytes(index - k))
      ensures index == if old(index) + 1 == k + h then 0 else old(index) + 1
      ensures sent == if index == 0 then [] else old(sent)
    {
      ghost var content := header + ParityBytes(index - k);
      ContentIsParity(content);
      out := EmitFrame(content);
      index := index + 1;
      if index == k + h {
        index := 0;
        sent := [];
      }
    }

    /** RSE_core on a valid tuple: data while the block is filling, then parity. */
    method Core(words: seq<BusWord>) returns (out: seq<BusWord>)
      requires Valid() && Frame(f, words) && |Payload(words, |words|)| <= maxSize
      modifies this, parity, lengthParity
      ensures Valid() && (old(index) >= k ==> OutputFrame(out))
      ensures old(index) < k ==> out == words && index == old(index) + 1 && sent == old(sent) + [Payload(words, |words|)]
      ensures old(index) >= k ==> Payload(out, |out|) == old(header) + old(ParityBytes(index - k))
      ensures old(index) >= k ==> index == if old(index) + 1 == k + h then 0 else old(index) + 1
      ensures old(index) >= k ==> sent == if index == 0 then [] else old(sent)
    {
      if index < k {
        EncodePacket(words);
        out := words;
      } else {
        out := OutputParity();
      }
    }

    /** Offsets past the packet keep their parity, so the whole buffer is up to date. */
    lemma CloseParity(packet: seq<nat>, length: nat)
      requires Open() && length == |packet| && Partial(packet, length)
      ensures forall o, i :: 0 <= o < (if length > maxLength then length else maxLength) && 0 <= i < h ==>
        parity[o, i] == ParityAt(f, gen[i], sent + [packet], o)
    {
      forall o, i | length <= o < maxLength && 0 <= i < h
        ensures parity[o, i] == ParityAt(f, gen[i], sent + [packet], o)
      {
        ParityPadding(f, gen[i], sent, packet, o);
      }
    }
  }

  // ---------- The batch code the stream implements ----------

  /** The bytes, or the length symbols, of all packets at one offset. */
  function BytesAt(packets: seq<seq<nat>>, offset: nat): (r: Vec)
    ensures |r| == |packets| && forall q :: 0 <= q < |r| ==> r[q] == ByteAt(packets[q], offset)
  {
    seq<nat>(|packets|, q requires 0 <= q < |packets| => ByteAt(packets[q], offset))
  }

  function LengthsAt(packets: seq<seq<nat>>, offset: nat): (r: Vec)
    ensures |r| == |packets| && forall q :: 0 <= q < |r| ==> r[q] == LengthByte(|packets[q]|, offset)
  {
    seq<nat>(|packets|, q requires 0 <= q < |packets| => LengthByte(|packets[q]|, offset))
  }

  /** Symbols as a data word of n columns: the other columns are zero. */
  function DataWord(xs: Vec, n: nat): Vec {
    seq<nat>(n, q requires 0 <= q < n => if q < |xs| then xs[q] else 0)
  }

  /** A word that agrees with the symbols in its first columns. */
  predicate Starts(d: Vec, xs: Vec) { |xs| <= |d| && forall q :: 0 <= q < |xs| ==> d[q] == xs[q] }

  predicate RowStarts(row: Vec, w: Vec) { |row| <= |w| && forall q :: 0 <= q < |row| ==> row[q] == w[q] }

  lemma {:induction false} ParityIsDot(f: Field, row: Vec, w: Vec, packets: seq<seq<nat>>, offset: nat, d: Vec)
    requires IsField(f) && |packets| <= |row| && RowStarts(row, w) && VecIn(f, w, |w|) && |d| == |w| && VecIn(f, d, |d|)
    requires Starts(d, BytesAt(packets, offset))
    ensures ParityAt(f, row, packets, offset) == Dot(f, w, d, |packets|)
    decreases |packets|
  {
    if packets != [] {
      var l := |packets| - 1;
      assert BytesAt(packets, offset)[..l] == BytesAt(packets[..l], offset);
      ParityIsDot(f, row, w, packets[..l], offset, d);
      assert BytesAt(packets, offset)[l] == d[l];
      Laws(f, w[l], d[l], 0);
    }
  }

  lemma {:induction false} LengthParityIsDot(f: Field, row: Vec, w: Vec, packets: seq<seq<nat>>, offset: nat, d: Vec)
    requires IsField(f) && |packets| <= |row| && RowStarts(row, w) && VecIn(f, w, |w|) && |d| == |w| && VecIn(f, d, |d|)
    requires Starts(d, LengthsAt(packets, offset))
    ensures LengthParityAt(f, row, packets, offset) == Dot(f, w, d, |packets|)
    decreases |packets|
  {
    if packets != [] {
      var l := |packets| - 1;
      assert LengthsAt(packets, offset)[..l] == LengthsAt(packets[..l], offset);
      LengthParityIsDot(f, row, w, packets[..l], offset, d);
      assert LengthsAt(packets, offset)[l] == d[l];
      Laws(f, w[l], d[l], 0);
    }
  }

  lemma {:induction false} DotTailZero(f: Field, w: Vec, v: Vec, m: nat, n: nat)
    requires IsField(f) && m <= n <= |w| == |v| && VecIn(f, w, |w|) && VecIn(f, v, |v|)
    requires forall q :: m <= q < n ==> v[q] == 0
    ensures Dot(f, w, v, n) == Dot(f, w, v, m)
    decreases n
  {
    if m < n {
      DotTailZero(f, w, v, m, n - 1);
      Zero(f, w[n - 1]);
      DotIn(f, w, v, m);
      Zero(f, Dot(f, w, v, m));
    }
  }

  /** The symbol x is what the batch code puts at parity position i for the data word d. */
  ghost predicate CompletesWord(f: Field, w: Matrix, h: nat, n: nat, i: nat, d: Vec, x: nat)
    requires i < h <= n && Shaped(w, n) && |w| == h && |d| == n
  {
    x == ParityPart(f, w, d)[n - 1 - i] && Solves(f, w, h, Sum(f, d, ParityPart(f, w, d)))
  }

  lemma DotCompletes(f: Field, w: Matrix, h: nat, n: nat, i: nat, xs: Vec)
    requires IsField(f) && IsWeights(f, w, h, n) && |w| == h && i < h && |xs| <= n - h && VecIn(f, xs, |xs|)
    ensures VecIn(f, DataWord(xs, n), n) && Starts(DataWord(xs, n), xs)
    ensures CompletesWord(f, w, h, n, i, DataWord(xs, n), Dot(f, w[i], DataWord(xs, n), |xs|))
  {
    var d := DataWord(xs, n);
    DotTailZero(f, w[i], d, |xs|, n);
    Completed(f, w, h, d);
  }

  lemma BytesIn(f: Field, packets: seq<seq<nat>>, offset: nat)
    requires 0 < f.size && forall q :: 0 <= q < |packets| ==> Bytes(f, packets[q])
    ensures VecIn(f, BytesAt(packets, offset), |packets|)
  {
    forall q | 0 <= q < |packets| ensures BytesAt(packets, offset)[q] < f.size { assert Bytes(f, packets[q]); }
  }

  lemma GeneratorStarts(f: Field, h: nat, k: nat, gen: Matrix, i: nat)
    requires i < h && gen == DataColumns(Weights(f, h, h + k), k)
    ensures |gen| == h && |gen[i]| == k && RowStarts(gen[i], Weights(f, h, h + k)[i])
  {
  }

  /**
   * With the generator that the encoder computes, the streamed parity of row i is the parity symbol that the batch
   * coder's weights put there for the packets' symbols at that offset: for the bytes and for the lengths alike.
   */
  lemma StreamIsBatch(f: Field, h: nat, k: nat, gen: Matrix, i: nat, packets: seq<seq<nat>>, offset: nat)
    requires IsField(f) && f.size == 256 && h + k < 256 && i < h && |packets| <= k
    requires gen == DataColumns(Weights(f, h, h + k), k) && forall q :: 0 <= q < |packets| ==> Bytes(f, packets[q])
    ensures |gen| == h && |gen[i]| == k
    ensures CompletesWord(f, Weights(f, h, h + k), h, h + k, i, DataWord(BytesAt(packets, offset), h + k), ParityAt(f, gen[i], packets, offset))
    ensures CompletesWord(f, Weights(f, h, h + k), h, h + k, i, DataWord(LengthsAt(packets, offset), h + k), LengthParityAt(f, gen[i], packets, offset))
  {
    GeneratorStarts(f, h, k, gen, i);
    WeightsGood(f, h, h + k);
    StreamedBytes(f, Weights(f, h, h + k), h, h + k, gen[i], i, packets, offset);
    StreamedLengths(f, Weights(f, h, h + k), h, h + k, gen[i], i, packets, offset);
  }

  lemma StreamedBytes(f: Field, w: Matrix, h: nat, n: nat, row: Vec, i: nat, packets: seq<seq<nat>>, offset: nat)
    requires IsField(f) && IsWeights(f, w, h, n) && |w| == h && i < h && |packets| <= |row| == n - h && RowStarts(row, w[i])
    requires forall q :: 0 <= q < |packets| ==> Bytes(f, packets[q])
    ensures CompletesWord(f, w, h, n, i, DataWord(BytesAt(packets, offset), n), ParityAt(f, row, packets, offset))
  {
    Zero(f, 0);
    BytesIn(f, packets, offset);
    var xs := BytesAt(packets, offset);
    DotCompletes(f, w, h, n, i, xs);
    ParityIsDot(f, row, w[i], packets, offset, DataWord(xs, n));
  }

  lemma StreamedLengths(f: Field, w: Matrix, h: nat, n: nat, row: Vec, i: nat, packets: seq<seq<nat>>, offset: nat)
    requires IsField(f) && f.size == 256 && IsWeights(f, w, h, n) && |w| == h && i < h && |packets| <= |row| == n - h
    requires RowStarts(row, w[i])
    ensures CompletesWord(f, w, h, n, i, DataWord(LengthsAt(packets, offset), n), LengthParityAt(f, row, packets, offset))
  {
    var xs := LengthsAt(packets, offset);
    DotCompletes(f, w, h, n, i, xs);
    LengthParityIsDot(f, row, w[i], packets, offset, DataWord(xs, n));
  }

  lemma {:induction false} LengthParityIn(f: Field, row: Vec, packets: seq<seq<nat>>, offset: nat)
    requires IsField(f) && f.size == 256 && |packets| <= |row| && VecIn(f, row, |row|)
    ensures LengthParityAt(f, row, packets, offset) < f.size
  {
    if packets != [] {
      var l := |packets| - 1;
      LengthParityIn(f, row, packets[..l], offset);
      Laws(f, LengthByte(|packets[l]|, offset), row[l], 0);
      Laws(f, LengthParityAt(f, row, packets[..l], offset), f.mul(LengthByte(|packets[l]|, offset), row[l]), 0);
    }
  }

  lemma {:induction false} PayloadSame(a: seq<BusWord>, b: seq<BusWord>, n: nat)
    requires n <= |a| <= |b| && b[..|a|] == a && forall i :: 0 <= i < n ==> a[i].count <= |a[i].data|
    ensures (forall i :: 0 <= i < n ==> b[i].count <= |b[i].data|) && Payload(b, n) == Payload(a, n)
  {
    assert forall i :: 0 <= i < n ==> b[i] == b[..|a|][i];
    if n != 0 { PayloadSame(a, b, n - 1); }
  }

  /** Word n supplies the bytes from 8 * n on. */
  lemma PayloadPrefix(f: Field, words: seq<BusWord>, n: nat)
    requires Frame(f, words) && n < |words|
    ensures 8 * n + words[n].count <= |Payload(words, |words|)|
    ensures forall b :: 0 <= b < words[n].count ==> Payload(words, |words|)[8 * n + b] == words[n].data[b]
  {
    PayloadShape(f, words, n);
    PayloadExtends(words, n + 1, |words|);
  }

  lemma {:induction false} PayloadExtends(words: seq<BusWord>, m: nat, n: nat)
    requires m <= n <= |words| && forall i :: 0 <= i < |words| ==> words[i].count <= |words[i].data|
    ensures Payload(words, m) <= Payload(words, n)
    decreases n
  {
    if m < n { PayloadExtends(words, m, n - 1); }
  }
}
