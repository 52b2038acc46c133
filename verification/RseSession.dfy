/** A whole session on one coder: encode a block, delete packets from it, decode it. */
module RseSession {
  import opened Algebra
  import opened ErasureCode
  import opened RseBlock
  import opened RseRecovery
  import opened RseRoundTrip
  import opened RseCoder

  /** fec_block_delete: the listed slots are lost, generated parity becomes known. */
  function Deleted(p: Params, b: Block, lost: seq<nat>): Block
    requires p.h <= p.n && b.n <= |b.cbi| == |b.plen| == |b.pstat|
  {
    b.(pstat := seq(|b.pstat|, i requires 0 <= i < |b.pstat| =>
         if i in lost then if b.cbi[i] < p.K() then Wanted else Ignore
         else if i < b.n && b.cbi[i] >= p.K() && (b.pstat[i] == Genned || b.pstat[i] == Genold) then Known
         else b.pstat[i]),
       plen := seq<nat>(|b.plen|, i requires 0 <= i < |b.plen| => if i in lost then 0 else b.plen[i]))
  }

  method Delete(p: Params, b: Block, lost: seq<nat>) returns (r: Block)
    requires p.h <= p.n && b.n <= |b.cbi| == |b.plen| == |b.pstat|
    requires forall i :: 0 <= i < |lost| ==> lost[i] < b.n
    ensures r == Deleted(p, b, lost)
  {
    var stat, len := Lose(p, b, lost);
    stat := Promote(p, b, stat);
    r := b.(pstat := stat, plen := len);
    assert r.pstat == Deleted(p, b, lost).pstat;
    assert r.plen == Deleted(p, b, lost).plen;
  }

  /** The lost slots become wanted data or ignored parity, of no length. */
  method Lose(p: Params, b: Block, lost: seq<nat>) returns (stat: seq<Flag>, len: seq<nat>)
    requires p.h <= p.n && b.n <= |b.cbi| == |b.plen| == |b.pstat|
    requires forall i :: 0 <= i < |lost| ==> lost[i] < b.n
    ensures |stat| == |b.pstat| && |len| == |b.plen|
    ensures forall q :: 0 <= q < |stat| ==>
      stat[q] == if q in lost then (if b.cbi[q] < p.K() then Wanted else Ignore) else b.pstat[q]
    ensures forall q :: 0 <= q < |len| ==> len[q] == if q in lost then 0 else b.plen[q]
  {
    stat, len := b.pstat, b.plen;
    for i := 0 to |lost|
      invariant |stat| == |b.pstat| && |len| == |b.plen|
      invariant forall q :: 0 <= q < |stat| ==>
        stat[q] == if q in lost[..i] then (if b.cbi[q] < p.K() then Wanted else Ignore) else b.pstat[q]
      invariant forall q :: 0 <= q < |len| ==> len[q] == if q in lost[..i] then 0 else b.plen[q]
    {
      assert lost[..i + 1] == lost[..i] + [lost[i]];
      stat := stat[lost[i] := if b.cbi[lost[i]] < p.K() then Wanted else Ignore];
      len := len[lost[i] := 0];
    }
    assert lost[..|lost|] == lost;
  }

  /** Generated parity becomes known. */
  method Promote(p: Params, b: Block, mid: seq<Flag>) returns (stat: seq<Flag>)
    requires p.h <= p.n && b.n <= |b.cbi| == |mid|
    ensures |stat| == |mid|
    ensures forall q :: 0 <= q < |stat| ==>
      stat[q] == if q < b.n && b.cbi[q] >= p.K() && (mid[q] == Genned || mid[q] == Genold) then Known else mid[q]
  {
    stat := mid;
    for i := 0 to b.n
      invariant |stat| == |mid|
      invariant forall q :: 0 <= q < |stat| ==>
        stat[q] == if q < i && b.cbi[q] >= p.K() && (mid[q] == Genned || mid[q] == Genold) then Known else mid[q]
    {
      if b.cbi[i] >= p.K() && (stat[i] == Genned || stat[i] == Genold) { stat := stat[i := Known]; }
    }
  }

  lemma DeletedArrived(f: Field, p: Params, w: Matrix, b: Block, packets: seq<seq<nat>>, lost: seq<nat>)
    requires IsField(f) && EncodeReady(f, p, b, packets) && Codable(p, w, b) && b.c > 0
    requires forall i :: 0 <= i < b.n ==> b.pstat[i] != Genold
    ensures Arrived(p, Coded(f, p, w, b, 'e'), Deleted(p, Coded(f, p, w, b, 'e'), lost))
  {
    var e := Coded(f, p, w, b, 'e');
    forall i | 0 <= i < b.n
      ensures e.pstat[i] == if i in Wants(p, b) then Genned else b.pstat[i]
    {
      if i in Wants(p, b) {
        var l :| 0 <= l < |Wants(p, b)| && Wants(p, b)[l] == i;
        WrittenFlag(p, b, Wants(p, b), ResultSheet(f, p, w, b, 'e'), 'e', b.c, l);
      } else {
        CodedFrame(f, p, w, b, 'e', i);
      }
    }
  }

  /** The theorem for deletion in place: what decoding leaves in the data slots. */
  lemma Restored(f: Field, p: Params, w: Matrix, b: Block, packets: seq<seq<nat>>, lost: seq<nat>, b2: Block)
    requires IsField(f) && IsWeights(f, w, p.h, p.n) && EncodeReady(f, p, b, packets) && Codable(p, w, b)
    requires FullParity(p, b) && LengthsFit(p, packets) && b.c > 0
    requires forall i :: 0 <= i < b.n ==> b.pstat[i] != Genold
    requires b2 == Deleted(p, Coded(f, p, w, b, 'e'), lost) && BlockOk(p, f, b2) && Codable(p, w, b2)
    ensures AllHeld(p, Coded(f, p, w, b2, 'd'), packets)
  {
    DeletedArrived(f, p, w, b, packets, lost);
    EncodeLoseDecode(f, p, w, b, packets, b2);
    forall i | 0 <= i < b.n && b.cbi[i] < p.K()
      ensures b.cbi[i] < |packets| && Holds(Coded(f, p, w, b2, 'd'), i, packets[b.cbi[i]])
    {
    }
  }

  /** Every data slot holds its packet. */
  ghost predicate AllHeld(p: Params, b: Block, packets: seq<seq<nat>>) {
    && p.h <= p.n && b.n <= |b.cbi| == |b.plen| == |b.pdata|
    && forall i :: 0 <= i < b.n && b.cbi[i] < p.K() ==> b.cbi[i] < |packets| && Holds(b, i, packets[b.cbi[i]])
  }

  /** A block of packets ready for its first encoding. */
  ghost predicate FreshBlock(f: Field, p: Params, b: Block, packets: seq<seq<nat>>) {
    && EncodeReady(f, p, b, packets) && FullParity(p, b) && LengthsFit(p, packets)
    && forall i :: 0 <= i < b.n ==> b.pstat[i] != Genold
  }

  method DeleteFrom(coder: Coder, lost: seq<nat>)
    requires coder.Valid() && forall i :: 0 <= i < |lost| ==> lost[i] < coder.fb.n
    modifies coder`fb
    ensures coder.Valid() && coder.fb == Deleted(coder.p, old(coder.fb), lost)
  {
    coder.fb := Delete(coder.p, coder.fb, lost);
  }

  lemma RestoredIfCodable(f: Field, p: Params, w: Matrix, b: Block, packets: seq<seq<nat>>, lost: seq<nat>, b2: Block)
    requires IsField(f) && IsWeights(f, w, p.h, p.n) && FreshBlock(f, p, b, packets) && Codable(p, w, b) && b.c > 0
    requires b2 == Deleted(p, Coded(f, p, w, b, 'e'), lost) && BlockOk(p, f, b2)
    ensures Restores(f, p, w, b2, packets)
  {
    if Codable(p, w, b2) { Restored(f, p, w, b, packets, lost, b2); }
  }

  /** Decoding the block, if it may be decoded, leaves every packet in its slot. */
  ghost predicate Restores(f: Field, p: Params, w: Matrix, b: Block, packets: seq<seq<nat>>) {
    Codable(p, w, b) ==> AllHeld(p, Coded(f, p, w, b, 'd'), packets)
  }

  method DecodeAll(coder: Coder, ghost w: Matrix, ghost packets: seq<seq<nat>>) returns (rc: int)
    requires coder.Valid() && w == coder.W() && Restores(coder.f, coder.p, w, coder.fb, packets)
    modifies coder`fb, coder.e, coder.d
    ensures coder.Valid() && rc == Check(coder.p, coder.f.size, old(coder.fb))
    ensures rc == 0 ==> AllHeld(coder.p, coder.fb, packets)
  {
    rc := coder.RseCode('d');
    assert coder.W() == w;
  }

  method LoseAndDecode(coder: Coder, lost: seq<nat>, ghost w: Matrix, ghost b: Block, ghost packets: seq<seq<nat>>) returns (rc: int)
    requires coder.Valid() && w == coder.W() && FreshBlock(coder.f, coder.p, b, packets) && b.c > 0
    requires Codable(coder.p, w, b) && coder.fb == Coded(coder.f, coder.p, w, b, 'e')
    requires forall i :: 0 <= i < |lost| ==> lost[i] < coder.fb.n
    modifies coder`fb, coder.e, coder.d
    ensures coder.Valid() && rc == Check(coder.p, coder.f.size, Deleted(coder.p, old(coder.fb), lost))
    ensures rc == 0 ==> AllHeld(coder.p, coder.fb, packets)
  {
    DeleteFrom(coder, lost);
    assert coder.W() == w;
    RestoredIfCodable(coder.f, coder.p, w, b, packets, lost, coder.fb);
    rc := DecodeAll(coder, w, packets);
  }

  /**
   * After a successful encoding, whatever packets are deleted: if the decoder accepts what is left,
   * every data slot holds its packet again, byte for byte and with its length.
   */
  method Session(coder: Coder, lost: seq<nat>, ghost packets: seq<seq<nat>>) returns (encoded: int, decoded: int)
    requires coder.Valid() && FreshBlock(coder.f, coder.p, coder.fb, packets)
    requires forall i :: 0 <= i < |lost| ==> lost[i] < coder.fb.n
    modifies coder`fb, coder.e, coder.d
    ensures coder.Valid() && encoded == Check(coder.p, coder.f.size, old(coder.fb))
    ensures encoded == 0 && decoded == 0 ==> AllHeld(coder.p, coder.fb, packets)
  {
    ghost var b := coder.fb;
    encoded := coder.RseCode('e');
    decoded := 0;
    if encoded == 0 {
      decoded := LoseAndDecode(coder, lost, coder.W(), b, packets);
    }
  }
}
