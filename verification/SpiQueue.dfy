/**
  The SPI transmission queue: packets linked through the heap, shared by the senders and the
  completion interrupt.  As in the driver, tail is the packet in flight and head the packet
  queued last.
*/
module SpiQueue {

  const FINISHED_RANGE := 0x1_0000_0000

  /* The reference: a first-in first-out queue, and what has left it. */
  datatype Fifo<T> = Fifo(pending: seq<T>, done: seq<T>) {
    function Send(x: T): Fifo<T> {
      this.(pending := pending + [x])
    }

    function Complete(): Fifo<T> {
      if pending == [] then this else Fifo(pending[1..], done + [pending[0]])
    }
  }

  class Packet {
    const wantsReply: bool
    // The words to send, data in the lower half, and the device's select bits.
    const words: array<bv32>
    const select: bv32
    var next: Packet?
    // A 32-bit counter of completions.
    var finished: nat

    constructor (wantsReply: bool, words: array<bv32>, select: bv32)
      ensures next == null && finished == 0 && this.wantsReply == wantsReply
      ensures this.words == words && this.select == select
    {
      this.wantsReply, this.words, this.select := wantsReply, words, select;
      next, finished := null, 0;
    }
  }

  const LAST_TRANSFER: bv32 := 0x0100_0000

  function Selecting(w: bv32, select: bv32): bv32 {
    w | select
  }

  function Releasing(w: bv32): bv32 {
    w | LAST_TRANSFER
  }

  function Data(w: bv32): bv32 {
    w & 0xFFFF
  }

  // What is sent: every word selects its device, the last one releases it.
  function Tagged(words: seq<bv32>, select: bv32): (r: seq<bv32>)
    ensures |r| == |words|
    ensures forall i | 0 <= i < |words| :: r[i] == TaggedWord(words[i], select, i == |words| - 1)
  {
    seq(|words|, i requires 0 <= i < |words| => TaggedWord(words[i], select, i == |words| - 1))
  }

  function TaggedWord(w: bv32, select: bv32, last: bool): bv32 {
    if last then Releasing(Selecting(w, select)) else Selecting(w, select)
  }

  lemma TagKeepsData(w: bv32, select: bv32, last: bool)
    requires Data(select) == 0
    ensures Data(TaggedWord(w, select, last)) == Data(w)
    ensures TaggedWord(TaggedWord(w, select, last), select, last) == TaggedWord(w, select, last)
  {
  }

  // The data arrive as they were put, and sending a packet again changes nothing.
  lemma TaggingKeepsData(words: seq<bv32>, select: bv32)
    requires Data(select) == 0
    ensures forall i | 0 <= i < |words| :: Data(Tagged(words, select)[i]) == Data(words[i])
    ensures Tagged(Tagged(words, select), select) == Tagged(words, select)
  {
    hide Data, TaggedWord;
    forall i | 0 <= i < |words|
      ensures Data(Tagged(words, select)[i]) == Data(words[i])
      ensures Tagged(Tagged(words, select), select)[i] == Tagged(words, select)[i]
    {
      TagKeepsData(words[i], select, i == |words| - 1);
    }
  }

  predicate Has(w: bv32, bits: bv32) {
    w & bits == bits
  }

  lemma SelectingHas(w: bv32, select: bv32)
    ensures Has(Selecting(w, select), w) && Has(Selecting(w, select), select)
  {
  }

  lemma ReleasingHas(w: bv32, had: bv32)
    requires Has(w, had)
    ensures Has(Releasing(w), had) && Has(Releasing(w), 0x0100_0000)
  {
  }

  lemma TaggedHas(w: bv32, select: bv32, last: bool)
    ensures Has(TaggedWord(w, select, last), w) && Has(TaggedWord(w, select, last), select)
    ensures last ==> Has(TaggedWord(w, select, last), 0x0100_0000)
  {
    hide Has, Selecting, Releasing;
    SelectingHas(w, select);
    ReleasingHas(Selecting(w, select), w);
    ReleasingHas(Selecting(w, select), select);
  }

  lemma OrOnly(a: bv32, b: bv32, others: bv32)
    requires a & others == 0 && b & others == 0
    ensures (a | b) & others == 0
  {
  }

  lemma TaggedOnly(w: bv32, select: bv32, last: bool, others: bv32)
    requires w & others == 0 && select & others == 0 && (last ==> 0x0100_0000 & others == 0)
    ensures TaggedWord(w, select, last) & others == 0
  {
    OrOnly(w, select, others);
    if last {
      OrOnly(w | select, 0x0100_0000, others);
    }
  }

  // Every word selects the device, the last one ends the transfer, and no other bits are set.
  lemma TaggingSelects(words: seq<bv32>, select: bv32, i: nat, others: bv32)
    requires i < |words|
    ensures var t := Tagged(words, select)[i];
            && Has(t, words[i]) && Has(t, select) && (i == |words| - 1 ==> Has(t, 0x0100_0000))
            && (words[i] & others == 0 && select & others == 0 && (i == |words| - 1 ==> 0x0100_0000 & others == 0) ==>
                  t & others == 0)
  {
    hide TaggedWord, Has;
    TaggedHas(words[i], select, i == |words| - 1);
    if words[i] & others == 0 && select & others == 0 && (i == |words| - 1 ==> 0x0100_0000 & others == 0) {
      TaggedOnly(words[i], select, i == |words| - 1, others);
    }
  }

  class SpiDriver {
    var head: Packet?
    var tail: Packet?
    // The packet whose buffers the DMA controller points at, and whether it may run.
    var transmitting: Packet?
    var receivingInto: Packet?
    var txEnabled: bool
    var rxEnabled: bool
    // The linked packets, in-flight one first; every send, and every completion.
    ghost var queue: seq<Packet>
    ghost var sent: seq<Packet>
    ghost var done: seq<Packet>

    ghost predicate Linked()
      reads this, queue
    {
      && (forall i, j | 0 <= i < j < |queue| :: queue[i] != queue[j])
      && (forall i | 0 <= i < |queue| - 1 :: queue[i].next == queue[i + 1])
      && (queue != [] ==> queue[|queue| - 1].next == null)
    }

    ghost predicate Valid()
      reads this, queue
    {
      && Linked()
      && (tail == null <==> queue == []) && (head == null <==> queue == [])
      && (queue != [] ==> tail == queue[0] && head == queue[|queue| - 1])
      && (queue != [] ==> transmitting == tail && txEnabled)
      && (queue != [] && queue[0].wantsReply ==> receivingInto == tail && rxEnabled)
      && sent == done + queue
    }

    ghost function Model(): Fifo<Packet>
      reads this
    {
      Fifo(queue, done)
    }

    constructor ()
      ensures Valid() && queue == [] && sent == [] && done == []
    {
      head, tail, transmitting, receivingInto := null, null, null, null;
      txEnabled, rxEnabled := false, false;
      queue, sent, done := [], [], [];
    }

    method StartTransfer()
      requires tail != null
      modifies this`transmitting, this`receivingInto, this`txEnabled, this`rxEnabled
      ensures transmitting == tail && txEnabled
      ensures rxEnabled == (old(rxEnabled) || tail.wantsReply)
      ensures receivingInto == if tail.wantsReply then tail else old(receivingInto)
    {
      transmitting := tail;
      txEnabled := true;
      if tail.wantsReply {
        receivingInto := tail;
        rxEnabled := true;
      }
    }

    method Tag(packet: Packet)
      requires packet.words.Length > 0
      modifies packet.words
      ensures packet.words[..] == Tagged(old(packet.words[..]), packet.select)
    {
      hide Selecting, Releasing;
      var n := packet.words.Length;
      var i := 0;
      while i < n
        invariant 0 <= i <= n
        invariant forall k | 0 <= k < i :: packet.words[k] == Selecting(old(packet.words[k]), packet.select)
        invariant forall k | i <= k < n :: packet.words[k] == old(packet.words[k])
      {
        packet.words[i] := Selecting(packet.words[i], packet.select);
        i := i + 1;
      }
      packet.words[n - 1] := Releasing(packet.words[n - 1]);
    }

    method SendPacket(packet: Packet)
      requires Valid() && packet !in queue && packet.words.Length > 0
      modifies this, packet, queue, packet.words
      ensures Valid()
      ensures packet.words[..] == Tagged(old(packet.words[..]), packet.select)
      ensures Model() == old(Model()).Send(packet) && sent == old(sent) + [packet]
      ensures packet.finished == old(packet.finished)
      ensures forall p | p in old(queue) :: p.finished == old(p.finished)
    {
      Tag(packet);
      hide Tagged;
      Append(packet);
    }

    // The packet becomes the last one, and starts if it is also the first.
    method Append(packet: Packet)
      requires Valid() && packet !in queue
      modifies this, packet, queue
      ensures Valid()
      ensures Model() == old(Model()).Send(packet) && sent == old(sent) + [packet]
      ensures packet.finished == old(packet.finished)
      ensures forall p | p in old(queue) :: p.finished == old(p.finished)
    {
      txEnabled, rxEnabled := false, false;
      packet.next := null;
      if head != null {
        head.next := packet;
        head := packet;
        txEnabled, rxEnabled := true, true;
      } else {
        head := packet;
        tail := head;
        StartTransfer();
      }
      queue := queue + [packet];
      sent := sent + [packet];
    }

    // The interrupt; complete says whether both transfer-finished flags are up.
    method Isr(complete: bool)
      requires Valid()
      modifies this, queue
      ensures Valid() && sent == old(sent)
      ensures Model() == if complete then old(Model()).Complete() else old(Model())
      ensures forall p | p in old(queue) ::
                p.finished == if complete && p == old(queue)[0] then (old(p.finished) + 1) % FINISHED_RANGE else old(p.finished)
    {
      if tail == null {
        return;
      }
      var oldTx, oldRx := txEnabled, rxEnabled;
      txEnabled, rxEnabled := false, false;
      if complete {
        FinishFirst();
      } else {
        txEnabled, rxEnabled := oldTx, oldRx;
      }
    }

    // The packet in flight is done; the next one starts, if there is one.
    method FinishFirst()
      requires Linked() && queue != [] && tail == queue[0] && head == queue[|queue| - 1]
      requires sent == done + queue
      modifies this, queue
      ensures Valid() && sent == old(sent) && Model() == old(Model()).Complete()
      ensures forall p | p in old(queue) ::
                p.finished == if p == old(queue)[0] then (old(p.finished) + 1) % FINISHED_RANGE else old(p.finished)
    {
      assert |queue| > 1 ==> queue[0].next == queue[1];
      tail.finished := (tail.finished + 1) % FINISHED_RANGE;
      done := done + [queue[0]];
      queue := queue[1..];
      if tail.next != null {
        tail := tail.next;
        StartTransfer();
      } else {
        head := null;
        tail := null;
      }
    }
  }

  /* Any interleaving of senders and interrupts. */

  datatype Op = Send(packet: Packet) | Interrupt(complete: bool)

  function Step(f: Fifo<Packet>, op: Op): Fifo<Packet> {
    match op
    case Send(p) => f.Send(p)
    case Interrupt(complete) => if complete then f.Complete() else f
  }

  function Replay(f: Fifo<Packet>, ops: seq<Op>): Fifo<Packet> {
    if ops == [] then f else Step(Replay(f, ops[..|ops| - 1]), ops[|ops| - 1])
  }

  function Sends(ops: seq<Op>): seq<Packet> {
    if ops == [] then [] else
      Sends(ops[..|ops| - 1]) + match ops[|ops| - 1] case Send(p) => [p] case Interrupt(_) => []
  }

  // No packet is sent while it is still queued.
  predicate NeverRequeued(f: Fifo<Packet>, ops: seq<Op>) {
    forall k | 0 <= k < |ops| && ops[k].Send? :: ops[k].packet !in Replay(f, ops[..k]).pending
  }

  // Packets complete in the order they were sent, each once.
  lemma {:induction false} CompletionsFollowSends(f: Fifo<Packet>, ops: seq<Op>)
    ensures var g := Replay(f, ops);
            g.done + g.pending == f.done + f.pending + Sends(ops)
    decreases |ops|
  {
    if ops != [] {
      CompletionsFollowSends(f, ops[..|ops| - 1]);
      var g, op := Replay(f, ops[..|ops| - 1]), ops[|ops| - 1];
      match op
      case Send(p) =>
        assert g.done + (g.pending + [p]) == (g.done + g.pending) + [p];
      case Interrupt(complete) =>
        assert Sends(ops) == Sends(ops[..|ops| - 1]);
        if complete && g.pending != [] {
          assert g.pending == [g.pending[0]] + g.pending[1..];
          assert (g.done + [g.pending[0]]) + g.pending[1..] == g.done + g.pending;
        }
    }
  }

  function Count(p: Packet, s: seq<Packet>): nat {
    multiset(s)[p]
  }

  function Wrap(n: int): nat {
    n % FINISHED_RANGE
  }

  lemma WrapNext(a: int, b: int)
    requires Wrap(a) == Wrap(b)
    ensures Wrap(Wrap(a + 1)) == Wrap(b + 1)
  {
  }

  // The counter stands where it started, plus the completions since.
  predicate CounterFits(now: int, before: int, completions: int) {
    Wrap(now) == Wrap(before + completions)
  }

  method Perform(d: SpiDriver, op: Op, ghost universe: set<Packet>)
    requires d.Valid() && (op.Send? ==> op.packet !in d.queue && op.packet in universe)
    requires forall p | p in d.queue :: p in universe
    requires forall p | p in universe :: p.words.Length > 0
    modifies d, universe, set p | p in universe :: p.words
    ensures d.Valid() && d.Model() == Step(old(d.Model()), op)
    ensures forall p | p in d.queue :: p in universe
    ensures forall p | p in universe :: p.finished
                                        == (if Completes(old(d.Model()), op, p)
                                            then (old(p.finished) + 1) % FINISHED_RANGE else old(p.finished))
  {
    match op {
      case Send(p) =>
        d.SendPacket(p);
      case Interrupt(complete) =>
        d.Isr(complete);
    }
  }

  lemma CountAfter(f: Fifo<Packet>, op: Op, p: Packet)
    ensures Count(p, Step(f, op).done)
         == Count(p, f.done) + if Completes(f, op, p) then 1 else 0
  {
  }

  predicate Completes(f: Fifo<Packet>, op: Op, p: Packet) {
    op == Interrupt(true) && f.pending != [] && p == f.pending[0]
  }

  lemma CounterAtStart(n: nat)
    ensures CounterFits(n, n, 0)
  {
  }

  lemma CounterStep(f: Fifo<Packet>, op: Op, p: Packet, mid: nat, now: nat, before: nat, base: nat)
    requires CounterFits(mid, before, Count(p, f.done) - base)
    requires now == if Completes(f, op, p) then (mid + 1) % FINISHED_RANGE else mid
    ensures CounterFits(now, before, Count(p, Step(f, op).done) - base)
  {
    CountAfter(f, op, p);
    hide Count;
    WrapNext(mid, before + Count(p, f.done) - base);
  }

  // The driver follows the reference through any interleaving, and every packet's counter
  // ends up advanced by exactly its number of completions.
  method Drive(d: SpiDriver, ops: seq<Op>, ghost universe: set<Packet>)
    requires d.Valid() && NeverRequeued(d.Model(), ops)
    requires forall p | p in d.queue :: p in universe
    requires forall p | p in universe :: p.words.Length > 0
    requires forall k | 0 <= k < |ops| && ops[k].Send? :: ops[k].packet in universe
    modifies d, universe, set p | p in universe :: p.words
    ensures d.Valid() && d.Model() == Replay(old(d.Model()), ops)
    ensures forall p | p in universe :: CounterFits(p.finished, old(p.finished), Count(p, d.done) - Count(p, old(d.done)))
  {
    hide Count, CounterFits, Completes, Step, SpiDriver.Valid, SpiDriver.Linked;
    ghost var start := d.Model();
    forall p | p in universe {
      CounterAtStart(p.finished);
    }
    ghost var before := map p | p in universe :: p.finished;
    var i := 0;
    assert ops[..0] == [];
    while i < |ops|
      invariant 0 <= i <= |ops| && d.Valid()
      invariant d.Model() == Replay(start, ops[..i])
      invariant forall p | p in d.queue :: p in universe
      invariant forall p | p in universe :: CounterFits(p.finished, before[p], Count(p, d.done) - Count(p, start.done))
    {
      ghost var f := d.Model();
      ghost var mid := map p | p in universe :: p.finished;
      assert ops[..i + 1][..i] == ops[..i];
      Perform(d, ops[i], universe);
      forall p | p in universe
        ensures CounterFits(p.finished, before[p], Count(p, d.done) - Count(p, start.done))
      {
        CounterStep(f, ops[i], p, mid[p], p.finished, before[p], Count(p, start.done));
      }
      i := i + 1;
    }
    assert ops[..i] == ops;
  }
}
