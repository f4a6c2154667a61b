/**
  The robot's serial port: the transmit buffer, the DMA controller that shifts its bytes out,
  and the interrupt that empties it.
*/
module StatusPort {
  import opened Words
  import opened StatusFrames
  import opened StatusSender

  class Port {
    const sender: Sender
    // How much of the buffer is out, and what the line has got.
    var gone: nat
    var line: seq<uint8>
    // Every frame offered so far.
    ghost var offered: seq<uint8>

    ghost predicate Valid()
      reads this, sender
    {
      && sender.Valid() && gone <= |sender.sent|
      && (!sender.overflow ==> line + sender.sent[gone..] == offered)
    }

    constructor (sender: Sender)
      requires sender.Valid() && sender.sent == [] && !sender.overflow
      ensures Valid() && this.sender == sender && gone == 0 && line == [] && offered == []
    {
      this.sender := sender;
      gone, line, offered := 0, [], [];
    }

    method Offer(r: Readings)
      requires Complete(r) && Valid()
      modifies this`offered, sender
      ensures Valid() && offered == old(offered) + StatusFrame(r)
      ensures !sender.overflow ==> |sender.sent| == old(|sender.sent|) + FRAME
      ensures sender.overflow == (old(sender.overflow) || old(|sender.sent|) + FRAME > TX_SIZE)
    {
      hide StatusFrame;
      ghost var sent := sender.sent;
      assert |sent| <= TX_SIZE;
      hide Sender.Valid;
      sender.SendStatus(r);
      offered := offered + StatusFrame(r);
      if !sender.overflow {
        assert (sent + StatusFrame(r))[gone..] == sent[gone..] + StatusFrame(r);
        assert line + (sent[gone..] + StatusFrame(r)) == (line + sent[gone..]) + StatusFrame(r);
      }
    }

    // The DMA controller sends the next byte, if there is one.
    method Shift()
      requires Valid()
      modifies this`gone, this`line
      ensures Valid() && gone == if old(gone) < |sender.sent| then old(gone) + 1 else old(gone)
    {
      if gone < |sender.sent| {
        ghost var left := sender.sent[gone..];
        assert left == [left[0]] + sender.sent[gone + 1..];
        line := line + [sender.sent[gone]];
        gone := gone + 1;
      }
    }

    // The interrupt looks whether everything is out.
    method Isr()
      requires Valid()
      modifies this`gone, sender
      ensures Valid() && sender.overflow == old(sender.overflow)
      ensures if old(gone) == old(|sender.sent|) then gone == |sender.sent| == 0
              else gone == old(gone) && sender.sent == old(sender.sent)
    {
      hide Sender.Valid;
      if gone == |sender.sent| {
        sender.Empty();
        gone := 0;
      }
    }
  }

  datatype Op = Offer(r: Readings) | Shift | Interrupt

  predicate OpsComplete(ops: seq<Op>) {
    forall op | op in ops && op.Offer? :: Complete(op.r)
  }

  function Offered(ops: seq<Op>): (rs: seq<Readings>)
    requires OpsComplete(ops)
    ensures forall r | r in rs :: Complete(r)
  {
    if ops == [] then []
    else
      var rest := Offered(ops[1..]);
      if ops[0].Offer? then [ops[0].r] + rest else rest
  }

  // Every frame finds room, in a buffer of which len bytes are filled and gone are out.
  predicate RoomEnough(len: nat, gone: nat, ops: seq<Op>)
    decreases |ops|
  {
    ops == [] ||
    match ops[0]
    case Offer(_) => len + FRAME <= TX_SIZE && RoomEnough(len + FRAME, gone, ops[1..])
    case Shift => RoomEnough(len, if gone < len then gone + 1 else gone, ops[1..])
    case Interrupt => if gone == len then RoomEnough(0, 0, ops[1..]) else RoomEnough(len, gone, ops[1..])
  }

  // Over any run in which every frame finds room, and no other, the line has got all frames
  // offered, but for what is still in the buffer.
  method Serve(port: Port, ops: seq<Op>)
    requires port.Valid() && OpsComplete(ops)
    modifies port, port.sender
    ensures port.Valid() && port.offered == old(port.offered) + Transmission(Offered(ops))
    ensures port.sender.overflow
        == (old(port.sender.overflow) || !RoomEnough(old(|port.sender.sent|), old(port.gone), ops))
    ensures !port.sender.overflow ==> port.line + port.sender.sent[port.gone..] == port.offered
    ensures !port.sender.overflow && port.gone == |port.sender.sent| ==> port.line == port.offered
  {
    hide StatusFrame, Sender.Valid;
    ghost var before, room := port.offered, RoomEnough(|port.sender.sent|, port.gone, ops);
    ghost var lost := port.sender.overflow;
    var i := 0;
    assert ops[0..] == ops;
    while i < |ops|
      invariant 0 <= i <= |ops| && port.Valid()
      invariant port.offered + Transmission(Offered(ops[i..])) == before + Transmission(Offered(ops))
      invariant !port.sender.overflow ==> !lost && room == RoomEnough(|port.sender.sent|, port.gone, ops[i..])
      invariant port.sender.overflow ==> lost || !room
    {
      assert ops[i..][1..] == ops[i + 1..];
      match ops[i] {
        case Offer(r) =>
          assert ops[i] in ops;
          MoreOffered(r, ops[i..]);
          port.Offer(r);
        case Shift =>
          port.Shift();
        case Interrupt =>
          port.Isr();
      }
      i := i + 1;
    }
  }

  lemma MoreOffered(r: Readings, ops: seq<Op>)
    requires OpsComplete(ops) && ops != [] && ops[0] == Offer(r)
    ensures Transmission(Offered(ops)) == StatusFrame(r) + Transmission(Offered(ops[1..]))
  {
    hide StatusFrame;
    assert Offered(ops)[1..] == Offered(ops[1..]);
  }
}
