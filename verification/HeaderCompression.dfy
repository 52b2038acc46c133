/** TCP/IP header compression: a compressor and a decompressor whose caches must stay in step. */
module HeaderCompression {
  import opened Common

  type byte = x: int | 0 <= x < 256
  type Bytes = seq<byte>

  const CACHE_SZ := 1024
  const ETH_SIZE := 14
  const ETHERTYPE_IP: Bytes := [0x08, 0x00]
  const ETYPE_COMPRESSED: Bytes := [0x12, 0x34]
  const TCP: byte := 6

  // ---------- Frames ----------

  function EtherType(f: Bytes): Bytes requires |f| >= ETH_SIZE { f[12..14] }
  function IpOf(f: Bytes): Bytes requires |f| >= 54 { f[14..34] }
  function TcpOf(f: Bytes): Bytes requires |f| >= 54 { f[34..54] }
  function PayloadOf(f: Bytes): Bytes requires |f| >= 54 { f[54..] }

  /** The bytes the compressor reads of a frame are there: Ethernet, then IP, then TCP as each is recognised. */
  predicate Readable(f: Bytes) {
    && |f| >= ETH_SIZE
    && (EtherType(f) == ETHERTYPE_IP ==> |f| >= 24 && (f[23] == TCP ==> |f| >= 54))
  }

  predicate IsIp(f: Bytes) requires |f| >= ETH_SIZE { EtherType(f) == ETHERTYPE_IP }
  predicate IsTcp(f: Bytes) requires Readable(f) { IsIp(f) && f[23] == TCP }

  /** A cached packet: its IP and TCP headers. */
  datatype Entry = Entry(ip: Bytes, tcp: Bytes)
  {
    predicate Ok() { |ip| == 20 && |tcp| == 20 }
    /** Source and destination address and port, as checkCache compares them. */
    function Key(): (Bytes, Bytes, Bytes, Bytes) requires Ok() { (ip[12..16], ip[16..20], tcp[0..2], tcp[2..4]) }
    /** The fields left out of a compressed header: version, service, fragment offset, time to live, protocol. */
    function Fixed(): (Bytes, Bytes, Bytes) requires Ok() { (ip[0..2], ip[6..8], ip[8..10]) }
    function Seq(): Bytes requires Ok() { tcp[4..8] }
    function Ack(): Bytes requires Ok() { tcp[8..12] }
  }

  type Cache = seq<Entry>
  ghost predicate CacheOk(c: Cache) { |c| == CACHE_SZ && forall i :: 0 <= i < |c| ==> c[i].Ok() }

  function BigEndian(b: Bytes): nat
    requires |b| == 4
  {
    (b[0] as int) * 0x1000000 + (b[1] as int) * 0x10000 + (b[2] as int) * 0x100 + b[3] as int
  }

  function SlotOf(ip: Bytes): (i: nat)
    requires |ip| == 20
    ensures i < CACHE_SZ
  {
    BigEndian(ip[12..16]) % CACHE_SZ
  }

  // ---------- The Internet checksum ----------

  /** The sum of the 16-bit words in host (little-endian) order; an odd last byte counts alone. */
  function WordSum(b: Bytes): nat {
    if |b| == 0 then 0 else if |b| == 1 then b[0] else b[0] as int + 256 * (b[1] as int) + WordSum(b[2..])
  }

  /** End-around carry until the sum fits 16 bits. */
  function Fold(r: nat): (s: nat)
    ensures s < 0x10000
    decreases r
  {
    if r < 0x10000 then r else Fold(r % 0x10000 + r / 0x10000)
  }

  function Checksum(b: Bytes): (c: nat)
    ensures c < 0x10000
  {
    0xFFFF - Fold(WordSum(b))
  }

  method Ccsum(b: Bytes) returns (c: nat)
    requires |b| < 0x10000
    ensures c == Checksum(b)
  {
    var r, d := 0, 0;
    while |b| - d > 1
      invariant 0 <= d <= |b| && r + WordSum(b[d..]) == WordSum(b)
    {
      r := r + b[d] as int + 256 * (b[d + 1] as int);
      assert b[d..][2..] == b[d + 2..];
      d := d + 2;
    }
    if |b| - d == 1 { r := r + b[d]; }
    while r / 0x10000 > 0
      invariant 0 <= r && Fold(r) == Fold(WordSum(b))
      decreases r
    {
      r := r % 0x10000 + r / 0x10000;
    }
    c := 0xFFFF - r;
  }

  /** A header with its checksum field (bytes 10 and 11) replaced. */
  function WithCheck(ip: Bytes, check: nat): Bytes
    requires |ip| == 20 && check < 0x10000
  {
    ip[..10] + [check % 256, check / 256] + ip[12..]
  }

  /** The header as the decompressor rebuilds it: checksum computed over the header with a zero field. */
  function Rechecked(ip: Bytes): (r: Bytes)
    requires |ip| == 20
    ensures |r| == 20
  {
    WithCheck(ip, Checksum(WithCheck(ip, 0)))
  }

  // ---------- Compression ----------

  /** compressedHeader_t: slot and change flags, then the fields that are always carried. */
  function CompressedHeader(slot: nat, seqChange: bool, ackChange: bool, e: Entry): (r: Bytes)
    requires slot < CACHE_SZ && e.Ok()
    ensures |r| == 14
  {
    [slot % 256, slot / 256 + (if seqChange then 4 else 0) + if ackChange then 8 else 0]
    + e.ip[2..6] + e.tcp[12..20]
  }

  function CompressedFrame(last: Entry, f: Bytes): Bytes
    requires |f| >= 54 && last.Ok()
  {
    var e := Entry(IpOf(f), TcpOf(f));
    f[..12] + ETYPE_COMPRESSED
    + CompressedHeader(SlotOf(e.ip), last.Seq() != e.Seq(), last.Ack() != e.Ack(), e)
    + (if last.Seq() != e.Seq() then e.Seq() else []) + (if last.Ack() != e.Ack() then e.Ack() else [])
    + PayloadOf(f)
  }

  /** The packets the compressor keeps state for: TCP whose length, held in 16 bits, is at least 100. */
  predicate Tracked(f: Bytes) requires Readable(f) { IsTcp(f) && |f| % 0x10000 >= 100 }

  function EntryOf(f: Bytes): (e: Entry)
    requires |f| >= 54
    ensures e.Ok()
  {
    Entry(IpOf(f), TcpOf(f))
  }

  /** compress: the new cache and the emitted frame. */
  function Compress(c: Cache, f: Bytes): (r: (Cache, Bytes))
    requires CacheOk(c) && Readable(f)
    ensures CacheOk(r.0)
  {
    if !Tracked(f) then (c, f)
    else
      var e := EntryOf(f);
      var slot := SlotOf(e.ip);
      (c[slot := e], if c[slot].Key() == e.Key() then CompressedFrame(c[slot], f) else f)
  }

  // ---------- Decompression ----------

  // The compressed header starts at byte 14: slot and flags, tot_len and id, the carried TCP fields.

  function SlotId(f: Bytes): nat requires |f| >= 28 { f[14] as int + 256 * ((f[15] as int) % 4) }
  predicate SeqChange(f: Bytes) requires |f| >= 28 { (f[15] as int / 4) % 2 == 1 }
  predicate AckChange(f: Bytes) requires |f| >= 28 { (f[15] as int / 8) % 2 == 1 }

  /** The length of Ethernet and compressed header with the optional fields. */
  function HeaderEnd(f: Bytes): nat
    requires |f| >= 28
  {
    28 + (if SeqChange(f) then 4 else 0) + if AckChange(f) then 4 else 0
  }

  /** The bytes the decompressor reads of a frame are there. */
  predicate Expandable(f: Bytes) {
    && Readable(f)
    && (EtherType(f) == ETYPE_COMPRESSED ==> |f| >= 28 && |f| >= HeaderEnd(f))
  }

  /** buildDecompressedHeaders. */
  function Rebuild(last: Entry, f: Bytes): (e: Entry)
    requires Expandable(f) && EtherType(f) == ETYPE_COMPRESSED && last.Ok()
    ensures e.Ok()
  {
    var seqNum := if SeqChange(f) then f[28..32] else last.Seq();
    var at := if SeqChange(f) then 32 else 28;
    var ackNum := if AckChange(f) then f[at..at + 4] else last.Ack();
    Entry(Rechecked(last.ip[0..2] + f[16..20] + last.ip[6..]), last.tcp[0..4] + seqNum + ackNum + f[20..28])
  }

  /** The cached entry with only its sequence and acknowledgement numbers brought up to date. */
  function Refresh(last: Entry, e: Entry): (r: Entry)
    requires last.Ok() && e.Ok()
    ensures r.Ok()
  {
    Entry(last.ip, last.tcp[..4] + e.tcp[4..12] + last.tcp[12..])
  }

  /** decompress: the new cache and the forwarded frame, if any. */
  function Decompress(c: Cache, f: Bytes): (r: (Cache, Option<Bytes>))
    requires CacheOk(c) && Expandable(f)
    ensures CacheOk(r.0)
  {
    if IsIp(f) then
      if |f| < 100 then (c, Some(f))
      else if f[23] == TCP then (c[SlotOf(IpOf(f)) := EntryOf(f)], Some(f))
      else (c, None)
    else if EtherType(f) != ETYPE_COMPRESSED then (c, Some(f))
    else
      var slot := SlotId(f);
      var e := Rebuild(c[slot], f);
      (c[slot := Refresh(c[slot], e)],
       Some(f[..12] + ETHERTYPE_IP + e.ip + e.tcp + f[HeaderEnd(f)..]))
  }

  // ---------- What the decompressor finds in a compressed frame ----------

  /** The parts of a frame put together by concatenation can be taken apart again. */
  lemma Parts(a: Bytes, b: Bytes, c: Bytes, d: Bytes, e: Bytes, g: Bytes)
    requires |a| == 12 && |b| == 2 && |c| == 14
    ensures var f := a + b + c + d + e + g;
      && |f| == 28 + |d| + |e| + |g| && f[..12] == a && f[12..14] == b && f[14..28] == c
      && f[28..28 + |d|] == d && f[28 + |d|..28 + |d| + |e|] == e && f[28 + |d| + |e|..] == g
  {
  }

  /** The slot number and the two flags share a byte. */
  lemma SlotBits(slot: nat, s: bool, a: bool)
    requires slot < CACHE_SZ
    ensures var b := slot / 256 + (if s then 4 else 0) + if a then 8 else 0;
      slot % 256 + 256 * (b % 4) == slot && (b / 4 % 2 == 1 <==> s) && (b / 8 % 2 == 1 <==> a)
  {
    var q := slot / 256;
    assert q == 0 || q == 1 || q == 2 || q == 3;
  }

  lemma CompressedParts(last: Entry, f: Bytes)
    requires |f| >= 54 && last.Ok()
    ensures var g, e := CompressedFrame(last, f), EntryOf(f);
      && Expandable(g) && EtherType(g) == ETYPE_COMPRESSED && g[..12] == f[..12] && SlotId(g) == SlotOf(e.ip)
      && SeqChange(g) == (last.Seq() != e.Seq()) && AckChange(g) == (last.Ack() != e.Ack())
      && g[16..20] == e.ip[2..6] && g[20..28] == e.tcp[12..20]
      && (SeqChange(g) ==> g[28..32] == e.Seq())
      && (AckChange(g) ==> var at := if SeqChange(g) then 32 else 28; g[at..at + 4] == e.Ack())
      && g[HeaderEnd(g)..] == PayloadOf(f)
  {
    var e := EntryOf(f);
    var s, a := last.Seq() != e.Seq(), last.Ack() != e.Ack();
    var h := CompressedHeader(SlotOf(e.ip), s, a, e);
    var x, y: Bytes := if s then e.Seq() else [], if a then e.Ack() else [];
    Parts(f[..12], ETYPE_COMPRESSED, h, x, y, PayloadOf(f));
    var g := CompressedFrame(last, f);
    SlotBits(SlotOf(e.ip), s, a);
    assert g == f[..12] + ETYPE_COMPRESSED + h + x + y + PayloadOf(f);
    assert g[14..28] == h;
    assert g[14] == h[0] && g[15] == h[1];
    assert h[1] == SlotOf(e.ip) / 256 + (if s then 4 else 0) + if a then 8 else 0;
    assert h[2..6] == e.ip[2..6] && h[6..14] == e.tcp[12..20];
    assert g[16..20] == h[2..6] && g[20..28] == h[6..14];
  }

  // ---------- The caches stay in step ----------

  predicate InStep(a: Entry, b: Entry) {
    a.Ok() && b.Ok() && a.Key() == b.Key() && a.Fixed() == b.Fixed() && a.Seq() == b.Seq() && a.Ack() == b.Ack()
  }

  ghost predicate Sync(c: Cache, d: Cache) {
    CacheOk(c) && CacheOk(d) && forall i :: 0 <= i < CACHE_SZ ==> InStep(c[i], d[i])
  }

  /** The header rebuilt from the cache is the frame's own header exactly when the fixed fields and the checksum match. */
  lemma RebuiltIp(last: Entry, ip: Bytes)
    requires last.Ok() && |ip| == 20 && last.ip[12..20] == ip[12..20]
    ensures Rechecked(last.ip[0..2] + ip[2..6] + last.ip[6..]) == ip <==>
      last.ip[0..2] == ip[0..2] && last.ip[6..10] == ip[6..10] && ip == Rechecked(ip)
  {
    var m := last.ip[0..2] + ip[2..6] + last.ip[6..];
    var r := Rechecked(m);
    assert r[0..2] == last.ip[0..2] && r[6..10] == last.ip[6..10];
    if last.ip[0..2] == ip[0..2] && last.ip[6..10] == ip[6..10] {
      assert WithCheck(m, 0) == WithCheck(ip, 0) by { SameButCheck(m, ip, 0); }
      SameButCheck(m, ip, Checksum(WithCheck(ip, 0)));
    }
  }

  lemma SameButCheck(a: Bytes, b: Bytes, check: nat)
    requires |a| == |b| == 20 && check < 0x10000
    requires a[0..2] == b[0..2] && a[2..6] == b[2..6] && a[6..10] == b[6..10] && a[12..20] == b[12..20]
    ensures WithCheck(a, check) == WithCheck(b, check)
  {
    assert a[..10] == a[0..2] + a[2..6] + a[6..10];
    assert b[..10] == b[0..2] + b[2..6] + b[6..10];
    assert a[12..] == a[12..20] && b[12..] == b[12..20];
  }

  // ---------- One frame through both ends ----------

  /** A frame the compressor would send in compressed form. */
  predicate Hit(c: Cache, f: Bytes)
    requires CacheOk(c) && Readable(f)
  {
    Tracked(f) && c[SlotOf(IpOf(f))].Key() == EntryOf(f).Key()
  }

  /** What a sender can check beforehand: the frames that come out of the decompressor as they went in. */
  predicate Restorable(c: Cache, f: Bytes)
    requires CacheOk(c) && Readable(f)
  {
    if !IsIp(f) then EtherType(f) != ETYPE_COMPRESSED
    else if !IsTcp(f) then |f| < 100
    else Hit(c, f) ==> c[SlotOf(IpOf(f))].Fixed() == EntryOf(f).Fixed() && IpOf(f) == Rechecked(IpOf(f))
  }

  lemma Reassembled(f: Bytes)
    requires |f| >= 54
    ensures f == f[..12] + EtherType(f) + IpOf(f) + TcpOf(f) + PayloadOf(f)
  {
  }

  lemma RebuiltTcp(last: Entry, d: Entry, f: Bytes)
    requires |f| >= 54 && InStep(last, d) && last.Key() == EntryOf(f).Key()
    ensures var g := CompressedFrame(last, f);
      Expandable(g) && EtherType(g) == ETYPE_COMPRESSED && Rebuild(d, g).tcp == TcpOf(f)
  {
    var g, tcp := CompressedFrame(last, f), TcpOf(f);
    CompressedParts(last, f);
    Halves4(d.tcp, tcp, 0);
    var at := if SeqChange(g) then 32 else 28;
    Quarters(tcp, d.tcp[0..4], if SeqChange(g) then g[28..32] else d.Seq(),
             if AckChange(g) then g[at..at + 4] else d.Ack(), g[20..28]);
  }

  lemma RebuiltHeader(last: Entry, d: Entry, f: Bytes)
    requires |f| >= 54 && InStep(last, d) && last.Key() == EntryOf(f).Key()
    ensures var g := CompressedFrame(last, f);
      && Expandable(g) && EtherType(g) == ETYPE_COMPRESSED
      && (Rebuild(d, g).ip == IpOf(f) <==> last.Fixed() == EntryOf(f).Fixed() && IpOf(f) == Rechecked(IpOf(f)))
  {
    var g, ip := CompressedFrame(last, f), IpOf(f);
    CompressedParts(last, f);
    Halves4(d.ip, ip, 6);
    assert d.ip[12..20] == d.ip[12..16] + d.ip[16..20];
    assert ip[12..20] == ip[12..16] + ip[16..20];
    RebuiltIp(d, ip);
  }

  /** Four bytes agree exactly when both halves do. */
  lemma Halves4(a: Bytes, b: Bytes, i: nat)
    requires i + 4 <= |a| == |b|
    ensures a[i..i + 4] == b[i..i + 4] <==> a[i..i + 2] == b[i..i + 2] && a[i + 2..i + 4] == b[i + 2..i + 4]
  {
    assert a[i..i + 4] == a[i..i + 2] + a[i + 2..i + 4];
    assert b[i..i + 4] == b[i..i + 2] + b[i + 2..i + 4];
    assert a[i..i + 4][..2] == a[i..i + 2] && a[i..i + 4][2..] == a[i + 2..i + 4];
    assert b[i..i + 4][..2] == b[i..i + 2] && b[i..i + 4][2..] == b[i + 2..i + 4];
  }

  lemma Quarters(t: Bytes, p: Bytes, q: Bytes, r: Bytes, s: Bytes)
    requires |t| == 20 && p == t[0..4] && q == t[4..8] && r == t[8..12] && s == t[12..20]
    ensures p + q + r + s == t
  {
  }

  /** A header with its middle replaced. */
  lemma Spliced(t: Bytes, u: Bytes, r: Bytes)
    requires |t| == 20 && |u| == 20 && r == t[..4] + u[4..12] + t[12..]
    ensures |r| == 20 && r[0..2] == t[0..2] && r[2..4] == t[2..4] && r[4..8] == u[4..8] && r[8..12] == u[8..12]
  {
    assert forall i :: 0 <= i < 4 ==> r[i] == t[i];
    assert forall i :: 4 <= i < 12 ==> r[i] == u[i];
  }

  lemma Refreshed(a: Entry, d: Entry, e: Entry, f: Bytes)
    requires |f| >= 54 && InStep(a, d) && a.Key() == EntryOf(f).Key() && a.Fixed() == EntryOf(f).Fixed()
    requires e.Ok() && e.tcp == TcpOf(f)
    ensures InStep(EntryOf(f), Refresh(d, e))
  {
    var r := Refresh(d, e);
    Spliced(d.tcp, e.tcp, r.tcp);
  }

  /** Two frames with the same Ethernet addresses and payload differ just where their headers differ. */
  lemma SameFrame(f: Bytes, ip: Bytes, tcp: Bytes)
    requires |f| >= 54 && EtherType(f) == ETHERTYPE_IP && |ip| == 20 && tcp == TcpOf(f)
    ensures f[..12] + ETHERTYPE_IP + ip + tcp + PayloadOf(f) == f <==> ip == IpOf(f)
  {
    var g := f[..12] + ETHERTYPE_IP + ip + tcp + PayloadOf(f);
    Reassembled(f);
    assert g[14..34] == ip;
  }

  /** A frame sent in compressed form. */
  lemma HitFrame(c: Cache, d: Cache, f: Bytes)
    requires Sync(c, d) && Readable(f) && Hit(c, f)
    ensures var r := Compress(c, f);
      && Expandable(r.1) && var o := Decompress(d, r.1);
         && (o.1 == Some(f) <==> Restorable(c, f)) && (Restorable(c, f) ==> Sync(r.0, o.0))
  {
    var slot := SlotOf(IpOf(f));
    var last, g := c[slot], CompressedFrame(c[slot], f);
    CompressedParts(last, f);
    RebuiltTcp(last, d[slot], f);
    RebuiltHeader(last, d[slot], f);
    var e := Rebuild(d[slot], g);
    SameFrame(f, e.ip, e.tcp);
    if Restorable(c, f) { Refreshed(last, d[slot], e, f); }
  }

  /** Through compressor and decompressor in step: exactly the restorable frames survive, and the step is kept. */
  lemma OneFrame(c: Cache, d: Cache, f: Bytes)
    requires Sync(c, d) && Expandable(f) && |f| <= 1500
    ensures var r := Compress(c, f);
      && Expandable(r.1) && var o := Decompress(d, r.1);
         && (o.1 == Some(f) <==> Restorable(c, f)) && (Restorable(c, f) ==> Sync(r.0, o.0))
  {
    if Hit(c, f) {
      HitFrame(c, d, f);
    } else if !IsIp(f) && EtherType(f) == ETYPE_COMPRESSED {
      var o := Decompress(d, f).1;
      assert o.value[12..14] == ETHERTYPE_IP;
    }
  }

  // ---------- Whole streams ----------

  function CompressAll(c: Cache, fs: seq<Bytes>): (r: (Cache, seq<Bytes>))
    requires CacheOk(c) && forall i :: 0 <= i < |fs| ==> Readable(fs[i])
    ensures CacheOk(r.0) && |r.1| == |fs|
    decreases fs
  {
    if fs == [] then (c, [])
    else
      var (c1, g) := Compress(c, fs[0]);
      var (c2, gs) := CompressAll(c1, fs[1..]);
      (c2, [g] + gs)
  }

  function DecompressAll(d: Cache, gs: seq<Bytes>): (r: (Cache, seq<Option<Bytes>>))
    requires CacheOk(d) && forall i :: 0 <= i < |gs| ==> Expandable(gs[i])
    ensures CacheOk(r.0) && |r.1| == |gs|
    decreases gs
  {
    if gs == [] then (d, [])
    else
      var (d1, o) := Decompress(d, gs[0]);
      var (d2, os) := DecompressAll(d1, gs[1..]);
      (d2, [o] + os)
  }

  /** Every frame is restorable with the cache the compressor has when the frame arrives. */
  predicate AllRestorable(c: Cache, fs: seq<Bytes>)
    requires CacheOk(c) && forall i :: 0 <= i < |fs| ==> Readable(fs[i])
    decreases fs
  {
    fs == [] || (Restorable(c, fs[0]) && AllRestorable(Compress(c, fs[0]).0, fs[1..]))
  }

  function Forwarded(fs: seq<Bytes>): seq<Option<Bytes>> {
    seq(|fs|, i requires 0 <= i < |fs| => Some(fs[i]))
  }

  lemma {:induction false} CompressedExpandable(c: Cache, fs: seq<Bytes>)
    requires CacheOk(c) && forall i :: 0 <= i < |fs| ==> Expandable(fs[i]) && Readable(fs[i])
    ensures forall i :: 0 <= i < |fs| ==> Expandable(CompressAll(c, fs).1[i])
    decreases fs
  {
    if fs != [] {
      CompressedExpandable(Compress(c, fs[0]).0, fs[1..]);
      if Hit(c, fs[0]) { CompressedParts(c[SlotOf(IpOf(fs[0]))], fs[0]); }
    }
  }

  /**
   * For every loss-free, in-order stream and caches in step: the whole stream comes out as it went
   * in if and only if every frame is restorable at its turn, and then the caches end in step.
   */
  lemma {:induction false} StreamRestored(c: Cache, d: Cache, fs: seq<Bytes>)
    requires Sync(c, d) && forall i :: 0 <= i < |fs| ==> Expandable(fs[i]) && Readable(fs[i]) && |fs[i]| <= 1500
    ensures var r := CompressAll(c, fs);
      && (forall i :: 0 <= i < |fs| ==> Expandable(r.1[i])) && var o := DecompressAll(d, r.1);
         && (o.1 == Forwarded(fs) <==> AllRestorable(c, fs)) && (AllRestorable(c, fs) ==> Sync(r.0, o.0))
    decreases fs
  {
    CompressedExpandable(c, fs);
    if fs != [] {
      var f, rest := fs[0], fs[1..];
      OneFrame(c, d, f);
      var r := Compress(c, f);
      var o := Decompress(d, r.1);
      var gs, os := CompressAll(r.0, rest).1, DecompressAll(d, CompressAll(c, fs).1).1;
      assert CompressAll(c, fs).1[1..] == gs;
      assert os[0] == o.1 && Forwarded(fs)[0] == Some(f);
      assert Forwarded(fs) == [Some(f)] + Forwarded(rest);
      if Restorable(c, f) {
        StreamRestored(r.0, o.0, rest);
        assert os[1..] == DecompressAll(o.0, gs).1;
        assert os == [o.1] + os[1..];
      }
    }
  }

  /** A frame that differs from the one before in its time to live only is a hit that cannot be restored. */
  lemma TtlNotRestorable(c: Cache, f: Bytes, ttl: byte)
    requires CacheOk(c) && Readable(f) && 100 <= |f| <= 1500 && IsTcp(f) && ttl != f[22]
    ensures var fs := [f, f[22 := ttl]];
      && (forall i :: 0 <= i < |fs| ==> Expandable(fs[i]) && Readable(fs[i]) && |fs[i]| <= 1500)
      && !AllRestorable(c, fs)
  {
    var g := f[22 := ttl];
    assert EtherType(g) == EtherType(f);
    var fs, c1 := [f, g], Compress(c, f).0;
    assert fs[1..] == [g];
    assert IpOf(g)[12..16] == IpOf(f)[12..16] && IpOf(g)[16..20] == IpOf(f)[16..20] && TcpOf(g) == TcpOf(f);
    assert c1[SlotOf(IpOf(f))] == EntryOf(f) && Hit(c1, g);
    assert IpOf(f)[8..10][0] == f[22] && IpOf(g)[8..10][0] == ttl;
    assert !Restorable(c1, g);
  }

  /** Not every stream survives: a flow whose time to live changes between two packets comes out different. */
  lemma ChangedTtl(c: Cache, d: Cache, f: Bytes, ttl: byte)
    requires Sync(c, d) && Readable(f) && 100 <= |f| <= 1500 && IsTcp(f) && ttl != f[22]
    ensures var fs := [f, f[22 := ttl]];
      && (forall i :: 0 <= i < |fs| ==> Expandable(fs[i]))
      && var sent := CompressAll(c, fs).1;
      && (forall i :: 0 <= i < |fs| ==> Expandable(sent[i]))
      && DecompressAll(d, sent).1 != Forwarded(fs)
  {
    TtlNotRestorable(c, f, ttl);
    StreamRestored(c, d, [f, f[22 := ttl]]);
  }

  // ---------- The rebuilt header verifies ----------

  lemma {:induction false} FoldMod(r: nat)
    ensures Fold(r) % 0xFFFF == r % 0xFFFF && (r > 0 <==> Fold(r) > 0)
    decreases r
  {
    if r >= 0x10000 {
      var x := r % 0x10000 + r / 0x10000;
      FoldMod(x);
      CarryKeepsMod(x, r / 0x10000);
      assert r == x + 0xFFFF * (r / 0x10000);
    }
  }

  lemma CarryKeepsMod(x: nat, q: nat)
    ensures (x + 0xFFFF * q) % 0xFFFF == x % 0xFFFF
  {
  }

  lemma {:induction false} WordSumConcat(a: Bytes, b: Bytes)
    requires |a| % 2 == 0
    ensures WordSum(a + b) == WordSum(a) + WordSum(b)
    decreases |a|
  {
    if a == [] {
      assert a + b == b;
    } else {
      assert (a + b)[2..] == a[2..] + b;
      WordSumConcat(a[2..], b);
    }
  }

  lemma WordSumCheck(ip: Bytes, check: nat)
    requires |ip| == 20 && check < 0x10000
    ensures WordSum(WithCheck(ip, check)) == WordSum(WithCheck(ip, 0)) + check
  {
    forall k: nat | k < 0x10000
      ensures WordSum(WithCheck(ip, k)) == WordSum(ip[..10]) + k + WordSum(ip[12..])
    {
      var m: Bytes := [k % 256, k / 256];
      assert WithCheck(ip, k) == ip[..10] + (m + ip[12..]);
      WordSumConcat(ip[..10], m + ip[12..]);
      WordSumConcat(m, ip[12..]);
      assert WordSum(m) == k by { assert WordSum(m[2..]) == 0; }
    }
  }

  /** A receiver that sums the whole rebuilt header, checksum included, gets all ones, as RFC 1071 asks. */
  lemma RebuiltVerifies(ip: Bytes)
    requires |ip| == 20
    ensures Fold(WordSum(Rechecked(ip))) == 0xFFFF
  {
    var s := WordSum(WithCheck(ip, 0));
    var k := 0xFFFF - Fold(s);
    WordSumCheck(ip, k);
    FoldMod(s);
    ComplementSum(s, Fold(s));
    FoldMod(s + k);
    OnlyMultiple(Fold(s + k));
  }

  lemma ComplementSum(s: nat, x: nat)
    requires x % 0xFFFF == s % 0xFFFF && x <= 0xFFFF && (s > 0 <==> x > 0)
    ensures (s + (0xFFFF - x)) % 0xFFFF == 0 && s + (0xFFFF - x) > 0
  {
    var q, p := s / 0xFFFF, x / 0xFFFF;
    assert s + (0xFFFF - x) == 0xFFFF * (q - p + 1);
  }

  lemma OnlyMultiple(x: nat)
    requires x % 0xFFFF == 0 && 0 < x < 0x10000
    ensures x == 0xFFFF
  {
  }

  // ---------- The program's two ends ----------

  class Compressor {
    var cache: Cache

    constructor ()
      ensures cache == ZeroCache()
    {
      cache := ZeroCache();
    }

    /** compress: forwards the frame as it is or in compressed form, and remembers its headers. */
    method Send(packet: Bytes) returns (out: Bytes)
      requires CacheOk(cache) && Readable(packet)
      modifies this
      ensures CacheOk(cache) && (cache, out) == Compress(old(cache), packet)
    {
      var doCompress := false;
      if EtherType(packet) == ETHERTYPE_IP {
        if packet[23] == TCP { doCompress := true; }
      }
      if !doCompress { return packet; }
      var cur := Entry(IpOf(packet), TcpOf(packet));
      if |packet| % 0x10000 < 100 { return packet; }
      var idx := SlotOf(cur.ip);
      var last := cache[idx];
      if last.Key() != cur.Key() {
        cache := cache[idx := cur];
        return packet;
      }
      var seqChange, ackChange := last.Seq() != cur.Seq(), last.Ack() != cur.Ack();
      out := packet[..12] + ETYPE_COMPRESSED;
      out := out + CompressedHeader(idx, seqChange, ackChange, cur);
      if seqChange { out := out + cur.tcp[4..8]; } else { assert out == out + []; }
      if ackChange { out := out + cur.tcp[8..12]; } else { assert out == out + []; }
      out := out + PayloadOf(packet);
      cache := cache[idx := cur];
    }
  }

  class Decompressor {
    var cache: Cache

    constructor ()
      ensures cache == ZeroCache()
    {
      cache := ZeroCache();
    }

    /** decompress: an IP frame of 100 bytes or more that is not TCP is not forwarded at all. */
    method Receive(packet: Bytes) returns (out: Option<Bytes>)
      requires CacheOk(cache) && Expandable(packet)
      modifies this
      ensures CacheOk(cache) && (cache, out) == Decompress(old(cache), packet)
    {
      if EtherType(packet) == ETHERTYPE_IP {
        if |packet| < 100 { return Some(packet); }
        if packet[23] == TCP {
          var cur := Entry(IpOf(packet), TcpOf(packet));
          cache := cache[SlotOf(cur.ip) := cur];
          return Some(packet);
        }
        return None;
      } else if EtherType(packet) != ETYPE_COMPRESSED {
        return Some(packet);
      }
      var idx := SlotId(packet);
      var last := cache[idx];
      var ip := last.ip[0..2] + packet[16..20] + last.ip[6..];
      var check := Ccsum(WithCheck(ip, 0));
      ip := WithCheck(ip, check);
      var at, seqNum, ackNum := 28, last.Seq(), last.Ack();
      if SeqChange(packet) {
        seqNum := packet[at..at + 4];
        at := at + 4;
      }
      if AckChange(packet) {
        ackNum := packet[at..at + 4];
        at := at + 4;
      }
      var tcp := last.tcp[0..4] + seqNum + ackNum + packet[20..28];
      assert tcp[4..12] == seqNum + ackNum;
      cache := cache[idx := Entry(last.ip, last.tcp[..4] + tcp[4..12] + last.tcp[12..])];
      out := Some(packet[..12] + ETHERTYPE_IP + ip + tcp + packet[at..]);
    }
  }

  /** Both ends start with zeroed caches. */
  function ZeroEntry(): (e: Entry) ensures e.Ok() { Entry(seq(20, _ => 0), seq(20, _ => 0)) }
  function ZeroCache(): (c: Cache) ensures CacheOk(c) { seq(CACHE_SZ, _ => ZeroEntry()) }

  lemma StartInStep()
    ensures Sync(ZeroCache(), ZeroCache())
  {
  }
}
