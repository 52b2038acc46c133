/** The FPGA decoder's block collector: counters and FIFOs of one traffic class, and the commands it issues. */
module DecoderCollector {
  import opened Common

  const BytesPerWord: nat := 8

  /** Counters are 8 bits wide. */
  const CounterRange: nat := 256

  type Word = nat

  datatype Packet = Packet(block: nat, index: nat, length: nat, kind: nat, words: seq<Word>)

  datatype Info = Info(isData: bool, index: nat, bytes: nat, kind: nat)

  datatype Command = Idle | OutputData | Decode | Bypass

  /** The state of one traffic class: the current block, two counters, and the FIFOs. */
  datatype Class = Class(block: nat, packets: nat, dataPackets: nat, infos: seq<Info>, data: seq<Word>)

  /** What a command sends on: packets with their words, for the decoder or directly to the output. */
  datatype Sent = Sent(encoded: seq<(Info, seq<Word>)>, raw: seq<(Info, seq<Word>)>)

  function WordsFor(bytes: nat): nat { (bytes + BytesPerWord - 1) / BytesPerWord }

  predicate IsData(p: Packet, k: nat) { p.index < k }

  function InfoOf(p: Packet, k: nat): Info { Info(IsData(p, k), p.index, p.length, p.kind) }

  /** A frame is at least as long as its length field says. */
  predicate FullFrame(p: Packet) { WordsFor(p.length) <= |p.words| }

  function Payload(p: Packet): seq<Word>
    requires FullFrame(p)
  {
    p.words[..WordsFor(p.length)]
  }

  // ---------- The packets of a block in order of arrival ----------

  function DataCount(run: seq<Packet>, k: nat): (n: nat)
    ensures n <= |run|
  {
    if run == [] then 0 else DataCount(run[..|run| - 1], k) + if IsData(run[|run| - 1], k) then 1 else 0
  }

  function Infos(run: seq<Packet>, k: nat): (r: seq<Info>)
    ensures |r| == |run| && forall i :: 0 <= i < |run| ==> r[i] == InfoOf(run[i], k)
  {
    seq<Info>(|run|, i requires 0 <= i < |run| => InfoOf(run[i], k))
  }

  function Data(run: seq<Packet>): seq<Word>
    requires forall p :: p in run ==> FullFrame(p)
  {
    if run == [] then [] else Payload(run[0]) + Data(run[1..])
  }

  lemma {:induction false} DataAppend(run: seq<Packet>, p: Packet)
    requires (forall q :: q in run ==> FullFrame(q)) && FullFrame(p)
    ensures forall q :: q in run + [p] ==> FullFrame(q)
    ensures Data(run + [p]) == Data(run) + Payload(p)
    decreases |run|
  {
    if run != [] {
      DataAppend(run[1..], p);
      assert (run + [p])[1..] == run[1..] + [p];
    }
  }

  /** A block is done when all its data packets (or, without waiting, k packets) have arrived. */
  predicate Done(run: seq<Packet>, k: nat, wait: bool) { if wait then DataCount(run, k) >= k else |run| >= k }

  /** The counters count the run, and the FIFOs hold exactly the run, or nothing once the block is done. */
  ghost predicate Holds(c: Class, run: seq<Packet>, k: nat, wait: bool) {
    && |run| < CounterRange
    && (forall p :: p in run ==> p.block == c.block && FullFrame(p))
    && c.packets == |run|
    && c.dataPackets == DataCount(run, k)
    && (Done(run, k, wait) ==> c.infos == [] && c.data == [])
    && (!Done(run, k, wait) ==> c.infos == Infos(run, k) && c.data == Data(run))
  }

  // ---------- The operations ----------

  /** Select_command. */
  function SelectCommand(c: Class, wait: bool, isData: bool, newBlock: bool, k: nat, bypass: bool): Command {
    if bypass then Bypass
    else if wait then
      if !newBlock then (if c.dataPackets == k && isData then OutputData else Idle)
      else if c.packets < k then OutputData
      else if c.dataPackets < k then Decode
      else Idle
    else
      if !newBlock then (if c.packets != k then Idle else if c.dataPackets == k then OutputData else Decode)
      else if c.packets < k then OutputData
      else Idle
  }

  /** Decide_to_drop. */
  predicate Drops(c: Class, wait: bool, newBlock: bool, k: nat) {
    !newBlock && (if wait then c.dataPackets else c.packets) >= k
  }

  function Bump(n: nat): nat { (n + 1) % CounterRange }

  function Enqueue(c: Class, p: Packet, k: nat): Class
    requires FullFrame(p)
  {
    c.(infos := c.infos + [InfoOf(p, k)], data := c.data + Payload(p))
  }

  function Tally(c: Class, isData: bool): Class {
    c.(packets := Bump(c.packets), dataPackets := if isData then Bump(c.dataPackets) else c.dataPackets)
  }

  /** Collect_packets up to the command: the frame enters the FIFOs and the counters of a running block advance. */
  function Arrive(c: Class, p: Packet, k: nat, wait: bool): Class
    requires FullFrame(p)
  {
    var newBlock := p.block != c.block;
    var d := if Drops(c, wait, newBlock, k) then c else Enqueue(c, p, k);
    if newBlock then d else Tally(d, IsData(p, k))
  }

  /** Collect_packets after the command: a new block starts its counters. */
  function Restart(c: Class, p: Packet, k: nat): Class {
    c.(block := p.block, packets := 1, dataPackets := if IsData(p, k) then 1 else 0)
  }

  method CollectWords(p: Packet, drop: bool, data: seq<Word>) returns (r: seq<Word>)
    requires FullFrame(p)
    ensures r == if drop then data else data + Payload(p)
  {
    r := data;
    var offset := 0;
    for i := 0 to |p.words|
      invariant offset == i * BytesPerWord
      invariant r == if drop then data else data + p.words[..if i <= WordsFor(p.length) then i else WordsFor(p.length)]
    {
      if !drop && offset < p.length { r := r + [p.words[i]]; }
      offset := offset + BytesPerWord;
    }
  }

  /** Reading n packets off the front of the FIFOs. */
  function Reads(infos: seq<Info>, data: seq<Word>, n: nat): seq<(Info, seq<Word>)>
    requires Available(infos, data, n)
    decreases n
  {
    if n == 0 then []
    else
      var w := WordsFor(infos[0].bytes);
      [(infos[0], data[..w])] + Reads(infos[1..], data[w..], n - 1)
  }

  /** There is something to read for every packet. */
  predicate Available(infos: seq<Info>, data: seq<Word>, n: nat)
    decreases n
  {
    n == 0 || (infos != [] && WordsFor(infos[0].bytes) <= |data| && Available(infos[1..], data[WordsFor(infos[0].bytes)..], n - 1))
  }

  /** What is left in the data FIFO. */
  function After(infos: seq<Info>, data: seq<Word>, n: nat): seq<Word>
    requires Available(infos, data, n)
    decreases n
  {
    if n == 0 then data else After(infos[1..], data[WordsFor(infos[0].bytes)..], n - 1)
  }

  function DataOnly(ps: seq<(Info, seq<Word>)>): seq<(Info, seq<Word>)> {
    if ps == [] then []
    else DataOnly(ps[..|ps| - 1]) + if ps[|ps| - 1].0.isData then [ps[|ps| - 1]] else []
  }

  lemma {:induction false} ReadsSplit(infos: seq<Info>, data: seq<Word>, n: nat)
    requires Available(infos, data, n + 1)
    ensures n < |infos| && Available(infos, data, n)
    ensures WordsFor(infos[n].bytes) <= |After(infos, data, n)|
    ensures Reads(infos, data, n + 1) == Reads(infos, data, n) + [(infos[n], After(infos, data, n)[..WordsFor(infos[n].bytes)])]
    ensures After(infos, data, n + 1) == After(infos, data, n)[WordsFor(infos[n].bytes)..]
    decreases n
  {
    if n > 0 { ReadsSplit(infos[1..], data[WordsFor(infos[0].bytes)..], n - 1); }
  }

  lemma {:induction false} AvailableLess(infos: seq<Info>, data: seq<Word>, n: nat, m: nat)
    requires Available(infos, data, n) && m <= n
    ensures Available(infos, data, m)
    decreases n - m
  {
    if m < n {
      ReadsSplit(infos, data, n - 1);
      AvailableLess(infos, data, n - 1, m);
    }
  }

  /** Select_packets: the packets of a command leave the FIFOs; parity packets are not sent on raw. */
  method SelectPackets(c: Class, command: Command, n: nat) returns (d: Class, sent: Sent)
    requires command == Decode || command == OutputData
    requires Available(c.infos, c.data, n)
    ensures n <= |c.infos| && d == c.(infos := c.infos[n..], data := After(c.infos, c.data, n))
    ensures sent == (if command == Decode then Sent(Reads(c.infos, c.data, n), [])
      else Sent([], DataOnly(Reads(c.infos, c.data, n))))
  {
    d, sent := c, Sent([], []);
    for i := 0 to n
      invariant i <= |c.infos| && Available(c.infos, c.data, i)
      invariant d == c.(infos := c.infos[i..], data := After(c.infos, c.data, i))
      invariant sent == (if command == Decode then Sent(Reads(c.infos, c.data, i), [])
        else Sent([], DataOnly(Reads(c.infos, c.data, i))))
    {
      AvailableLess(c.infos, c.data, n, i + 1);
      ReadsSplit(c.infos, c.data, i);
      var info := d.infos[0];
      var words := WordsFor(info.bytes);
      var packet := (info, d.data[..words]);
      ghost var upTo := Reads(c.infos, c.data, i + 1);
      assert upTo[..i] == Reads(c.infos, c.data, i) by { ReadsLength(c.infos, c.data, i); }
      if command == Decode {
        sent := sent.(encoded := sent.encoded + [packet]);
      } else if info.isData {
        sent := sent.(raw := sent.raw + [packet]);
      }
      d := d.(infos := d.infos[1..], data := d.data[words..]);
    }
  }

  lemma {:induction false} ReadsLength(infos: seq<Info>, data: seq<Word>, n: nat)
    requires Available(infos, data, n)
    ensures |Reads(infos, data, n)| == n && n <= |infos|
    decreases n
  {
    if n > 0 { ReadsLength(infos[1..], data[WordsFor(infos[0].bytes)..], n - 1); }
  }

  // ---------- Reading back a run ----------

  /** The packets of a run as they are sent on. */
  function Pairs(run: seq<Packet>, k: nat): seq<(Info, seq<Word>)>
    requires forall p :: p in run ==> FullFrame(p)
  {
    seq<(Info, seq<Word>)>(|run|, i requires 0 <= i < |run| => (InfoOf(run[i], k), Payload(run[i])))
  }

  lemma ReadsCons(info: Info, words: seq<Word>, infos: seq<Info>, data: seq<Word>, n: nat)
    requires |words| == WordsFor(info.bytes) && Available(infos, data, n)
    ensures Available([info] + infos, words + data, n + 1)
    ensures Reads([info] + infos, words + data, n + 1) == [(info, words)] + Reads(infos, data, n)
    ensures After([info] + infos, words + data, n + 1) == After(infos, data, n)
  {
    assert ([info] + infos)[1..] == infos && (words + data)[..|words|] == words && (words + data)[|words|..] == data;
  }

  lemma InfosSplit(run: seq<Packet>, k: nat)
    requires run != []
    ensures Infos(run, k) == [InfoOf(run[0], k)] + Infos(run[1..], k)
  {
  }

  lemma PairsSplit(run: seq<Packet>, k: nat)
    requires run != [] && forall p :: p in run ==> FullFrame(p)
    ensures Pairs(run, k) == [(InfoOf(run[0], k), Payload(run[0]))] + Pairs(run[1..], k)
  {
  }

  /** FIFOs that start with a run give it back, and what follows stays. */
  lemma {:induction false} ReadsRun(run: seq<Packet>, k: nat, infos: seq<Info>, data: seq<Word>)
    requires forall p :: p in run ==> FullFrame(p)
    ensures Available(Infos(run, k) + infos, Data(run) + data, |run|)
    ensures Reads(Infos(run, k) + infos, Data(run) + data, |run|) == Pairs(run, k)
    ensures After(Infos(run, k) + infos, Data(run) + data, |run|) == data
    decreases |run|
  {
    if run == [] {
      assert Infos(run, k) + infos == infos && Data(run) + data == data;
    } else {
      var tail := run[1..];
      ReadsRun(tail, k, infos, data);
      ReadsCons(InfoOf(run[0], k), Payload(run[0]), Infos(tail, k) + infos, Data(tail) + data, |tail|);
      InfosSplit(run, k);
      PairsSplit(run, k);
      Assoc([InfoOf(run[0], k)], Infos(tail, k), infos);
      Assoc(Payload(run[0]), Data(tail), data);
    }
  }

  // ---------- One packet ----------

  const Nothing := Sent([], [])

  function NextRun(block: nat, run: seq<Packet>, p: Packet): seq<Packet> { if p.block == block then run + [p] else [p] }

  /** More than k packets of a block have arrived, but not all of its data packets. */
  predicate Overfull(run: seq<Packet>, k: nat) { |run| > k && DataCount(run, k) < k }

  /** What must be sent on for a block that is complete or given up. */
  function Close(run: seq<Packet>, k: nat): (Command, Sent)
    requires forall p :: p in run ==> FullFrame(p)
  {
    if DataCount(run, k) >= k || |run| < k then (OutputData, Sent([], DataOnly(Pairs(run, k))))
    else (Decode, Sent(Pairs(run, k), []))
  }

  /** What a packet sets off: its block becomes complete, or it ends a block that was not. */
  function Reaction(block: nat, run: seq<Packet>, p: Packet, k: nat, wait: bool): (Command, Sent)
    requires (forall q :: q in run ==> FullFrame(q)) && FullFrame(p)
  {
    if Done(run, k, wait) then (Idle, Nothing)
    else if p.block != block then Close(run, k)
    else if Done(run + [p], k, wait) then Close(run + [p], k)
    else (Idle, Nothing)
  }

  /** The number of packets a command takes. */
  function Taken(command: Command, c: Class, k: nat): nat {
    if command == Decode then k else if command == OutputData then c.packets else 0
  }

  function CommandFor(c: Class, p: Packet, k: nat, wait: bool): Command
    requires FullFrame(p)
  {
    SelectCommand(Arrive(c, p, k, wait), wait, IsData(p, k), p.block != c.block, k, false)
  }

  /** What one more packet does to the measures of a run. */
  ghost predicate Longer(run: seq<Packet>, p: Packet, r: seq<Packet>, k: nat) {
    && (forall q :: q in run ==> FullFrame(q))
    && FullFrame(p)
    && (forall q :: q in r ==> q in run || q == p)
    && |r| == |run| + 1
    && DataCount(r, k) == DataCount(run, k) + (if IsData(p, k) then 1 else 0)
    && Infos(r, k) == Infos(run, k) + [InfoOf(p, k)]
    && Data(r) == Data(run) + Payload(p)
  }

  lemma LongerAppend(run: seq<Packet>, p: Packet, k: nat)
    requires (forall q :: q in run ==> FullFrame(q)) && FullFrame(p)
    ensures Longer(run, p, run + [p], k)
  {
    assert (run + [p])[..|run|] == run;
    DataAppend(run, p);
    assert Infos(run + [p], k) == Infos(run, k) + [InfoOf(p, k)];
  }

  lemma EnqueueLonger(c: Class, run: seq<Packet>, p: Packet, r: seq<Packet>, k: nat)
    requires Longer(run, p, r, k) && c.infos == Infos(run, k) && c.data == Data(run)
    ensures Enqueue(c, p, k) == c.(infos := Infos(r, k), data := Data(r))
  {
  }

  lemma ArriveCounts(c: Class, p: Packet, k: nat, wait: bool, n: nat, m: nat)
    requires FullFrame(p) && p.block == c.block && c.packets + 1 == n < CounterRange
    requires c.dataPackets + (if IsData(p, k) then 1 else 0) == m < CounterRange
    ensures Arrive(c, p, k, wait)
      == (if Drops(c, wait, false, k) then c else Enqueue(c, p, k)).(packets := n, dataPackets := m)
  {
  }

  lemma ArriveSame(c: Class, run: seq<Packet>, p: Packet, r: seq<Packet>, k: nat, wait: bool)
    requires Holds(c, run, k, wait) && p.block == c.block && |r| < CounterRange && Longer(run, p, r, k)
    ensures var a := Arrive(c, p, k, wait);
      a == c.(packets := |r|, dataPackets := DataCount(r, k),
        infos := if Done(run, k, wait) then [] else Infos(r, k),
        data := if Done(run, k, wait) then [] else Data(r))
  {
    ArriveCounts(c, p, k, wait, |r|, DataCount(r, k));
    if !Done(run, k, wait) { EnqueueLonger(c, run, p, r, k); }
  }

  /** The whole step for a packet of the current block, seen from the run. */
  lemma SameStep(c: Class, run: seq<Packet>, p: Packet, r: seq<Packet>, k: nat, wait: bool)
    requires Holds(c, run, k, wait) && p.block == c.block && |r| < CounterRange && k > 0 && Longer(run, p, r, k)
    ensures var a, command := Arrive(c, p, k, wait), CommandFor(c, p, k, wait);
      && command == (if Done(run, k, wait) || !Done(r, k, wait) then Idle else Close(r, k).0)
      && (command == Idle ==> Holds(a, r, k, wait))
      && (command != Idle ==> a.infos == Infos(r, k) && a.data == Data(r) && Taken(command, a, k) == |r|)
      && (command != Idle ==> Holds(a.(infos := [], data := []), r, k, wait))
  {
    ArriveSame(c, run, p, r, k, wait);
  }

  /** A packet of a new block finds the old block in the FIFOs in front of it. */
  lemma NewStep(c: Class, run: seq<Packet>, p: Packet, k: nat, wait: bool)
    requires Holds(c, run, k, wait) && FullFrame(p) && p.block != c.block && k > 0 && !(wait && Overfull(run, k))
    ensures var a, command := Arrive(c, p, k, wait), CommandFor(c, p, k, wait);
      && command == Reaction(c.block, run, p, k, wait).0
      && (command == Idle ==> a.infos == Infos([p], k) && a.data == Data([p]))
      && (command != Idle ==> a.infos == Infos(run, k) + Infos([p], k) && a.data == Data(run) + Data([p]))
      && (command != Idle ==> Taken(command, a, k) == |run|)
  {
    assert Infos([p], k) == [InfoOf(p, k)];
    assert Data([p]) == Payload(p);
  }

  /** Collect_packets: the new state and the command with the number of packets counted for it. */
  method Collect(c: Class, p: Packet, k: nat, wait: bool) returns (d: Class, command: Command, count: nat)
    requires FullFrame(p)
    ensures command == CommandFor(c, p, k, wait) && count == Arrive(c, p, k, wait).packets
    ensures d == if p.block != c.block then Restart(Arrive(c, p, k, wait), p, k) else Arrive(c, p, k, wait)
  {
    var newBlock, isData := p.block != c.block, p.index < k;
    var drop := Drops(c, wait, newBlock, k);
    var data := CollectWords(p, drop, c.data);
    d := c.(data := data);
    if !drop { d := d.(infos := d.infos + [Info(isData, p.index, p.length, p.kind)]); }
    if !newBlock {
      if isData { d := d.(dataPackets := Bump(d.dataPackets)); }
      d := d.(packets := Bump(d.packets));
    }
    count := d.packets;
    command := SelectCommand(d, wait, isData, newBlock, k, false);
    if newBlock {
      d := d.(packets := 1, dataPackets := 0);
      if isData { d := d.(dataPackets := 1); }
      d := d.(block := p.block);
    }
  }

  lemma TakenIsFront(d: Class, taken: seq<Packet>, rest: seq<Packet>, k: nat)
    requires (forall p :: p in taken ==> FullFrame(p)) && (forall p :: p in rest ==> FullFrame(p))
    requires d.infos == Infos(taken, k) + Infos(rest, k) && d.data == Data(taken) + Data(rest)
    ensures Available(d.infos, d.data, |taken|) && Reads(d.infos, d.data, |taken|) == Pairs(taken, k)
    ensures After(d.infos, d.data, |taken|) == Data(rest) && d.infos[|taken|..] == Infos(rest, k)
  {
    ReadsRun(taken, k, Infos(rest, k), Data(rest));
  }

  /** A command that takes exactly a run sends it on and leaves the rest. */
  method TakeRun(c: Class, command: Command, n: nat, k: nat, ghost taken: seq<Packet>, ghost rest: seq<Packet>)
    returns (d: Class, sent: Sent)
    requires command == Decode || command == OutputData
    requires (forall p :: p in taken ==> FullFrame(p)) && (forall p :: p in rest ==> FullFrame(p))
    requires c.infos == Infos(taken, k) + Infos(rest, k) && c.data == Data(taken) + Data(rest) && n == |taken|
    ensures d == c.(infos := Infos(rest, k), data := Data(rest))
    ensures sent == if command == Decode then Sent(Pairs(taken, k), []) else Sent([], DataOnly(Pairs(taken, k)))
  {
    TakenIsFront(c, taken, rest, k);
    d, sent := SelectPackets(c, command, n);
  }

  /** A command that takes all there is. */
  method TakeAll(c: Class, command: Command, n: nat, k: nat, ghost taken: seq<Packet>) returns (d: Class, sent: Sent)
    requires command == Decode || command == OutputData
    requires forall p :: p in taken ==> FullFrame(p)
    requires c.infos == Infos(taken, k) && c.data == Data(taken) && n == |taken|
    ensures d == c.(infos := [], data := [])
    ensures sent == if command == Decode then Sent(Pairs(taken, k), []) else Sent([], DataOnly(Pairs(taken, k)))
  {
    assert Infos([], k) == [] && Data([]) == [];
    d, sent := TakeRun(c, command, n, k, taken, []);
  }

  /** A packet of the current block. */
  method StepSame(c: Class, p: Packet, k: nat, wait: bool, ghost run: seq<Packet>, ghost r: seq<Packet>)
    returns (d: Class, command: Command, sent: Sent)
    requires Holds(c, run, k, wait) && p.block == c.block && |r| < CounterRange && k > 0 && Longer(run, p, r, k)
    ensures Holds(d, r, k, wait)
    ensures (command, sent) == if Done(run, k, wait) || !Done(r, k, wait) then (Idle, Nothing) else Close(r, k)
  {
    SameStep(c, run, p, r, k, wait);
    var count;
    d, command, count := Collect(c, p, k, wait);
    sent := Nothing;
    if command == Decode || command == OutputData {
      d, sent := TakeAll(d, command, if command == Decode then k else count, k, r);
    }
  }

  /** A packet of a new block. */
  method StepNew(c: Class, p: Packet, k: nat, wait: bool, ghost run: seq<Packet>)
    returns (d: Class, command: Command, sent: Sent)
    requires Holds(c, run, k, wait) && FullFrame(p) && p.block != c.block && k >= 2 && !(wait && Overfull(run, k))
    ensures Holds(d, [p], k, wait)
    ensures (command, sent) == if Done(run, k, wait) then (Idle, Nothing) else Close(run, k)
  {
    NewStep(c, run, p, k, wait);
    var count;
    d, command, count := Collect(c, p, k, wait);
    sent := Nothing;
    if command == Decode || command == OutputData {
      d, sent := TakeRun(d, command, if command == Decode then k else count, k, run, [p]);
    }
    assert [p][..0] == [];
  }

  class Decoder {
    const classes: array<Class>

    constructor (count: nat)
      ensures fresh(classes) && classes.Length == count
      ensures forall t :: 0 <= t < count ==> classes[t] == Class(0, 0, 0, [], [])
    {
      classes := new Class[count](_ => Class(0, 0, 0, [], []));
    }

    /**
     * One packet of a traffic class. Whatever the FIFOs are asked for is there and belongs to the block
     * the command is about; afterwards they hold the current block, or nothing once it is done.
     */
    method Process(t: nat, p: Packet, k: nat, wait: bool, ghost run: seq<Packet>) returns (command: Command, sent: Sent)
      requires t < classes.Length && Holds(classes[t], run, k, wait) && FullFrame(p)
      requires k >= 2 && (p.block == classes[t].block ==> |run| + 1 < CounterRange)
      requires p.block != classes[t].block && wait ==> !Overfull(run, k)
      modifies classes
      ensures (command, sent) == Reaction(old(classes[t].block), run, p, k, wait)
      ensures Holds(classes[t], NextRun(old(classes[t].block), run, p), k, wait)
      ensures forall u :: 0 <= u < classes.Length && u != t ==> classes[u] == old(classes[u])
    {
      var c := classes[t];
      var d;
      if p.block == c.block {
        LongerAppend(run, p, k);
        d, command, sent := StepSame(c, p, k, wait, run, run + [p]);
      } else {
        d, command, sent := StepNew(c, p, k, wait, run);
      }
      classes[t] := d;
    }

    /** A whole stream of packets of one traffic class. */
    method Receive(t: nat, ps: seq<Packet>, k: nat, wait: bool, ghost run: seq<Packet>) returns (out: seq<(Command, Sent)>)
      requires t < classes.Length && Holds(classes[t], run, k, wait) && k >= 2
      requires Orderly(classes[t].block, run, ps, k, wait)
      modifies classes
      decreases |ps|
      ensures out == Reactions(old(classes[t].block), run, ps, k, wait)
      ensures Holds(classes[t], RunAfter(old(classes[t].block), run, ps).1, k, wait)
      ensures forall u :: 0 <= u < classes.Length && u != t ==> classes[u] == old(classes[u])
    {
      out := [];
      if ps != [] {
        ghost var next := NextRun(classes[t].block, run, ps[0]);
        var command, sent := Process(t, ps[0], k, wait, run);
        var more := Receive(t, ps[1..], k, wait, next);
        out := [(command, sent)] + more;
      }
    }
  }

  // ---------- Whole streams ----------

  /** The block and the run after a stream of packets. */
  function RunAfter(block: nat, run: seq<Packet>, ps: seq<Packet>): (nat, seq<Packet>)
    decreases |ps|
  {
    if ps == [] then (block, run)
    else RunAfter(ps[0].block, NextRun(block, run, ps[0]), ps[1..])
  }

  /** Frames are complete, no counter overflows, and no block ends overfull. */
  predicate Orderly(block: nat, run: seq<Packet>, ps: seq<Packet>, k: nat, wait: bool)
    decreases |ps|
  {
    ps == [] ||
    (&& FullFrame(ps[0])
     && (ps[0].block == block ==> |run| + 1 < CounterRange)
     && (ps[0].block != block && wait ==> !Overfull(run, k))
     && Orderly(ps[0].block, NextRun(block, run, ps[0]), ps[1..], k, wait))
  }

  /** What each packet of a stream sets off, told from the packets alone. */
  function Reactions(block: nat, run: seq<Packet>, ps: seq<Packet>, k: nat, wait: bool): seq<(Command, Sent)>
    requires (forall q :: q in run ==> FullFrame(q)) && Orderly(block, run, ps, k, wait)
    decreases |ps|
  {
    if ps == [] then []
    else
      [Reaction(block, run, ps[0], k, wait)]
      + Reactions(ps[0].block, NextRun(block, run, ps[0]), ps[1..], k, wait)
  }

  /** With one parity packet per block, no index comes twice within a run of the same block. */
  predicate OneParity(block: nat, run: seq<Packet>, ps: seq<Packet>, k: nat)
    decreases |ps|
  {
    ps == [] ||
    (&& FullFrame(ps[0])
     && ps[0].index <= k
     && (ps[0].block == block ==> forall q :: q in run ==> q.index != ps[0].index)
     && OneParity(ps[0].block, NextRun(block, run, ps[0]), ps[1..], k))
  }

  predicate DistinctUpTo(run: seq<Packet>, k: nat) {
    && (forall i, j :: 0 <= i < j < |run| ==> run[i].index != run[j].index)
    && (forall q :: q in run ==> q.index <= k)
  }

  /** Distinct indices up to k: at most one of the packets is not a data packet. */
  lemma {:induction false} AtMostOneParity(run: seq<Packet>, k: nat)
    requires DistinctUpTo(run, k)
    ensures |run| <= DataCount(run, k) + 1
    ensures |run| == DataCount(run, k) + 1 ==> exists q :: q in run && q.index == k
    decreases |run|
  {
    if run != [] {
      var n := |run| - 1;
      AtMostOneParity(run[..n], k);
      assert run[n] in run;
    }
  }

  lemma {:induction false} SetBelow(a: set<nat>, n: nat)
    requires forall x :: x in a ==> x < n
    ensures |a| <= n
    decreases n
  {
    if n == 0 {
      assert a == {};
    } else {
      SetBelow(a - {n - 1}, n - 1);
    }
  }

  function Indices(run: seq<Packet>): set<nat> { set q | q in run :: q.index }

  lemma {:induction false} DistinctSize(run: seq<Packet>)
    requires forall i, j :: 0 <= i < j < |run| ==> run[i].index != run[j].index
    ensures |Indices(run)| == |run|
    decreases |run|
  {
    if run != [] {
      var n := |run| - 1;
      var front := run[..n];
      DistinctSize(front);
      assert run == front + [run[n]];
      assert Indices(run) == Indices(front) + {run[n].index};
    }
  }

  lemma RunAtMost(run: seq<Packet>, k: nat)
    requires DistinctUpTo(run, k)
    ensures |run| <= k + 1
  {
    DistinctSize(run);
    SetBelow(Indices(run), k + 1);
  }

  /** Such a stream is orderly, so the FIFO invariant holds throughout it. */
  lemma {:induction false} OneParityOrderly(block: nat, run: seq<Packet>, ps: seq<Packet>, k: nat, wait: bool)
    requires k + 1 < CounterRange && DistinctUpTo(run, k) && OneParity(block, run, ps, k)
    ensures Orderly(block, run, ps, k, wait)
    decreases |ps|
  {
    if ps != [] {
      var next := NextRun(block, run, ps[0]);
      AtMostOneParity(run, k);
      RunAtMost(next, k);
      OneParityOrderly(ps[0].block, next, ps[1..], k, wait);
    }
  }

  // ---------- Exactly when a new block finds the FIFOs clean ----------

  /** The infos left after the command that a packet of a new block sets off. */
  function Left(c: Class, p: Packet, k: nat, wait: bool): (r: seq<Info>)
    requires FullFrame(p)
  {
    var a := Arrive(c, p, k, wait);
    var n := Taken(CommandFor(c, p, k, wait), a, k);
    if n <= |a.infos| then a.infos[n..] else []
  }

  /**
   * The FIFO holds just the new packet, and the block it starts is not yet done, if and only if the old block
   * was not overfull and one packet is not already enough. With several parity packets, or k = 1, this fails.
   */
  lemma NewBlockClean(c: Class, run: seq<Packet>, p: Packet, k: nat, wait: bool)
    requires Holds(c, run, k, wait) && FullFrame(p) && p.block != c.block
    ensures Left(c, p, k, wait) == (if Done([p], k, wait) then [] else Infos([p], k))
      <==> !(wait && Overfull(run, k)) && !Done([p], k, wait)
  {
    assert [p][..0] == [];
    if k > 0 && !(wait && Overfull(run, k)) {
      NewStep(c, run, p, k, wait);
    }
  }

  lemma {:induction false} DataSplit(run: seq<Packet>, more: seq<Packet>)
    requires (forall q :: q in run ==> FullFrame(q)) && (forall q :: q in more ==> FullFrame(q))
    ensures forall q :: q in run + more ==> FullFrame(q)
    ensures Data(run + more) == Data(run) + Data(more)
    decreases |run|
  {
    if run == [] {
      assert run + more == more;
    } else {
      DataSplit(run[1..], more);
      assert (run + more)[1..] == run[1..] + more;
      Assoc(Payload(run[0]), Data(run[1..]), Data(more));
    }
  }

  lemma OverfullStep(c: Class, run: seq<Packet>, p: Packet, k: nat)
    requires Holds(c, run, k, true) && Overfull(run, k) && FullFrame(p) && p.block != c.block
    ensures var a := Arrive(c, p, k, true);
      && CommandFor(c, p, k, true) == Decode
      && a.infos == Infos(run[..k], k) + Infos(run[k..] + [p], k)
      && a.data == Data(run[..k]) + Data(run[k..] + [p])
  {
    assert run == run[..k] + run[k..];
    DataSplit(run[..k], run[k..]);
    DataAppend(run[k..], p);
    Assoc(Data(run[..k]), Data(run[k..]), Payload(p));
    assert Infos(run, k) + [InfoOf(p, k)] == Infos(run[..k], k) + Infos(run[k..] + [p], k);
  }

  /** For every overfull block: its packets beyond the first k stay in front of the packet that starts the next block. */
  lemma OverfullLeft(c: Class, run: seq<Packet>, p: Packet, k: nat)
    requires Holds(c, run, k, true) && Overfull(run, k) && FullFrame(p) && p.block != c.block
    ensures Left(c, p, k, true) == Infos(run[k..] + [p], k) && |Left(c, p, k, true)| >= 2
  {
    OverfullStep(c, run, p, k);
    var a := Arrive(c, p, k, true);
    assert a.infos[k..] == Infos(run[k..] + [p], k);
  }

  method StepOverfull(c: Class, p: Packet, k: nat, ghost run: seq<Packet>) returns (d: Class, command: Command, sent: Sent)
    requires Holds(c, run, k, true) && Overfull(run, k) && FullFrame(p) && p.block != c.block
    ensures d.block == p.block && d.packets == 1
    ensures d.infos == Infos(run[k..] + [p], k) && d.data == Data(run[k..] + [p])
    ensures (command, sent) == (Decode, Sent(Pairs(run[..k], k), []))
  {
    OverfullStep(c, run, p, k);
    var count;
    d, command, count := Collect(c, p, k, true);
    d, sent := TakeRun(d, command, k, k, run[..k], run[k..] + [p]);
  }

  /** The packets of one block are an orderly stream, and stay one run. */
  lemma {:induction false} OneBlock(block: nat, run: seq<Packet>, ps: seq<Packet>, k: nat)
    requires forall q :: q in ps ==> q.block == block && FullFrame(q)
    requires |run| + |ps| < CounterRange
    ensures Orderly(block, run, ps, k, true) && RunAfter(block, run, ps) == (block, run + ps)
    decreases |ps|
  {
    if ps == [] {
      assert run + ps == run;
    } else {
      OneBlock(block, run + [ps[0]], ps[1..], k);
      assert run + [ps[0]] + ps[1..] == run + ps;
    }
  }

  /** A decoder that has received the packets of one block. */
  method ReceiveBlock(run: seq<Packet>, k: nat) returns (c: Class)
    requires k >= 2 && |run| < CounterRange && forall q :: q in run ==> q.block == 0 && FullFrame(q)
    ensures Holds(c, run, k, true)
  {
    var decoder := new Decoder(1);
    OneBlock(0, [], run, k);
    assert [] + run == run;
    var out := decoder.Receive(0, run, k, true, []);
    c := decoder.classes[0];
  }

  /**
   * Such a state is reached from the start: a decoder that has received an overfull block, and then a packet of
   * another one, counts one packet while the FIFOs still hold the first block's surplus in front of it.
   */
  method Surplus(run: seq<Packet>, p: Packet, k: nat) returns (d: Class, sent: Sent)
    requires k >= 2 && Overfull(run, k) && |run| < CounterRange && FullFrame(p) && p.block != 0
    requires forall q :: q in run ==> q.block == 0 && FullFrame(q)
    ensures d.packets == 1 && d.infos == Infos(run[k..] + [p], k) && d.data == Data(run[k..] + [p])
    ensures sent == Sent(Pairs(run[..k], k), [])
  {
    var c := ReceiveBlock(run, k);
    assert run[0] in run;
    var command;
    d, command, sent := StepOverfull(c, p, k, run);
  }

  /** For example, one of two data packets and two parity packets. */
  lemma TwoParities(a: Packet, b: Packet, d: Packet)
    requires a.index < 2 <= b.index && 2 <= d.index
    ensures Overfull([a, b, d], 2)
  {
    var run := [a, b, d];
    assert run[..2] == [a, b] && [a, b][..1] == [a] && [a][..0] == [];
    assert DataCount([a], 2) == 1 && DataCount([a, b], 2) == 1 && DataCount(run, 2) == 1;
  }
}
