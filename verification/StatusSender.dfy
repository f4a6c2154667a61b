/**
  The robot's end of the status link.
*/
module StatusSender {
  import opened Words
  import opened Crc
  import opened CommandStream
  import opened StatusFrames

  function AsBytes(p: seq<uint8>): (b: Bytes)
    ensures |b| == |p| && forall k | 0 <= k < |p| :: b[k] == p[k] as bv8
  {
    seq(|p|, k requires 0 <= k < |p| => p[k] as bv8)
  }

  function AsInts(b: Bytes): (p: seq<uint8>)
    ensures |p| == |b| && forall k | 0 <= k < |p| :: p[k] == b[k] as int
  {
    seq(|b|, k requires 0 <= k < |b| => ByteValue(b[k]))
  }

  function ByteValue(b: bv8): (v: uint8)
    ensures v == b as int
  {
    b as int
  }

  function HighByte(crc: bv16): uint8 {
    ByteValue((crc >> 8) as bv8)
  }

  function LowByte(crc: bv16): uint8 {
    ByteValue((crc & 0xFF) as bv8)
  }

  lemma BackToBytes(b: Bytes)
    ensures AsBytes(AsInts(b)) == b
  {
  }

  // What follows the header: the payload and its check.
  function Packet(r: Readings): (p: seq<uint8>)
    requires Complete(r)
    ensures |p| == STATE_LENGTH && p[..PAYLOAD] == Payload(r)
  {
    var tail := AsInts(TrailerBytes(TableCrc(0, AsBytes(Payload(r)))));
    assert (Payload(r) + tail)[..PAYLOAD] == Payload(r);
    Payload(r) + tail
  }

  const FRAME := 83

  function StatusFrame(r: Readings): (f: seq<uint8>)
    requires Complete(r)
    ensures |f| == FRAME
  {
    HEADER + Packet(r)
  }

  function Transmission(rs: seq<Readings>): seq<uint8>
    requires forall r | r in rs :: Complete(r)
  {
    if rs == [] then [] else StatusFrame(rs[0]) + Transmission(rs[1..])
  }

  // A receiver that checked the packet as the bootloader checks an image would accept it.
  lemma PacketIsAccepted(r: Readings)
    requires Complete(r)
    ensures Accepts(AsBytes(Packet(r)))
  {
    hide TableCrc, Payload, TrailerBytes, Accepts, AsInts, AsBytes;
    var payload := AsBytes(Payload(r));
    var trailer := TrailerBytes(TableCrc(0, payload));
    SenderIsAccepted(payload);
    BackToBytes(trailer);
    assert AsBytes(Packet(r)) == payload + trailer;
  }

  const TX_SIZE := 1024

  // What a transmit buffer holds of what is put into it: the rest is dropped.
  function Kept(put: seq<uint8>): seq<uint8> {
    if |put| <= TX_SIZE then put else put[..TX_SIZE]
  }

  class Sender {
    var crc: bv16
    var sent: seq<uint8>
    var overflow: bool
    // Everything put into the buffer since it was emptied, and the part of it that the CRC register has seen.
    ghost var put: seq<uint8>
    ghost var body: seq<uint8>
    // Whether something had been lost when the buffer was emptied last.
    ghost var lostBefore: bool

    ghost predicate Valid()
      reads this`sent, this`overflow, this`put, this`lostBefore
    {
      sent == Kept(put) && (overflow <==> lostBefore || |put| > TX_SIZE)
    }

    constructor ()
      ensures Valid() && sent == [] && !overflow
    {
      crc, sent, overflow, put, body, lostBefore := 0, [], false, [], [], false;
    }

    method PutChar(val: uint8)
      requires Valid()
      modifies this`sent, this`overflow, this`put
      ensures Valid() && put == old(put) + [val]
      ensures sent == if |old(sent)| < TX_SIZE then old(sent) + [val] else old(sent)
      ensures overflow == (old(overflow) || |old(sent)| >= TX_SIZE)
    {
      put := put + [val];
      if |sent| >= TX_SIZE {
        overflow := true;
        return;
      }
      sent := sent + [val];
    }

    // The interrupt's part, when everything has gone out.
    method Empty()
      requires Valid()
      modifies this`sent, this`put, this`lostBefore
      ensures Valid() && sent == [] && put == []
    {
      sent, put, lostBefore := [], [], overflow;
    }

    method PutWcrc(data: int)
      requires Valid()
      modifies this`crc, this`sent, this`overflow, this`put, this`body
      ensures Valid()
      ensures crc == TableStep(old(crc), (data % 0x100) as bv8)
      ensures put == old(put) + [data % 0x100] && body == old(body) + [data % 0x100]
    {
      hide TableStep;
      crc := TableStep(crc, (data % 0x100) as bv8);
      PutChar(data % 0x100);
      body := body + [data % 0x100];
    }

    // n bytes of the packet are out after base, and the register holds their CRC.
    ghost predicate Sending(r: Readings, base: seq<uint8>, n: nat)
      requires Complete(r) && n <= PAYLOAD
      reads this
    {
      && Valid()
      && body == Payload(r)[..n] && put == base + HEADER + body
      && crc == TableCrc(0, AsBytes(body))
    }

    method PutField(data: int, ghost r: Readings, ghost base: seq<uint8>, ghost n: nat)
      requires Complete(r) && n < PAYLOAD && Sending(r, base, n)
      requires data % 0x100 == PayloadByte(r, n)
      modifies this`crc, this`sent, this`overflow, this`put, this`body
      ensures Sending(r, base, n + 1)
    {
      hide PayloadByte, TableStep, TableCrc, Valid;
      CrcOfNext(body, data % 0x100);
      PutWcrc(data);
      assert body == Payload(r)[..n + 1];
    }

    method SendStatus(r: Readings)
      requires Complete(r) && Valid()
      modifies this`crc, this`sent, this`overflow, this`put, this`body
      ensures Valid() && put == old(put) + StatusFrame(r)
      ensures sent == Kept(old(sent) + StatusFrame(r))
      ensures overflow == (old(overflow) || |old(sent)| + |StatusFrame(r)| > TX_SIZE)
    {
      hide Sending, TableCrc, HighByte, LowByte, Valid;
      ghost var base := put;
      KeptTwice(base, StatusFrame(r));
      ValidParts();
      SendPacket(r);
      ValidParts();
    }

    lemma ValidParts()
      requires Valid()
      ensures sent == Kept(put) && (overflow <==> lostBefore || |put| > TX_SIZE)
    {
    }

    method SendPacket(r: Readings)
      requires Complete(r) && Valid()
      modifies this`crc, this`sent, this`overflow, this`put, this`body
      ensures Valid() && put == old(put) + StatusFrame(r)
    {
      hide Sending, TableCrc, HighByte, LowByte, Valid, Kept, StatusFrame;
      ghost var base := put;
      crc := 0;
      body := [];
      PutChar(HEADER[0]);
      PutChar(HEADER[1]);
      PutChar(HEADER[2]);
      PutChar(HEADER[3]);
      Started(r, base);
      SendPower(r, base);
      SendMotors(r, base);
      SendInertial(r, base);
      SendDistance(r, base);
      SendLight(r, base);
      SendThermal(r, base);
      SendIrLight(r, base);
      SendFlags(r, base);
      AllSent(r, base);
      PutChar(HighByte(crc));
      PutChar(LowByte(crc));
    }

    lemma Started(r: Readings, base: seq<uint8>)
      requires Complete(r) && Valid() && crc == 0 && body == []
      requires put == base + [HEADER[0]] + [HEADER[1]] + [HEADER[2]] + [HEADER[3]]
      ensures Sending(r, base, 0)
    {
      hide Valid;
      assert put == base + HEADER + [];
    }

    lemma AllSent(r: Readings, base: seq<uint8>)
      requires Complete(r) && Sending(r, base, PAYLOAD)
      ensures Valid() && put + [HighByte(crc)] + [LowByte(crc)] == base + StatusFrame(r)
    {
      var payload := Payload(r);
      assert payload[..PAYLOAD] == payload;
      assert put == base + HEADER + payload && crc == TableCrc(0, AsBytes(payload));
      FrameParts(r);
      TrailerValues(crc);
      hide *;
      FrameJoined(base, payload, HighByte(crc), LowByte(crc));
    }

    method SendPower(r: Readings, ghost base: seq<uint8>)
      requires Complete(r) && Sending(r, base, 0)
      modifies this`crc, this`sent, this`overflow, this`put, this`body
      ensures Sending(r, base, 5)
    {
      hide Sending;
      PutField(r.voltage, r, base, 0);
      PutField(r.chargeState, r, base, 1);
      PutField(r.bat40, r, base, 2);
      PutField(r.bat160, r, base, 3);
      PutField(r.bat280, r, base, 4);
    }

    method SendMotors(r: Readings, ghost base: seq<uint8>)
      requires Complete(r) && Sending(r, base, 5)
      modifies this`crc, this`sent, this`overflow, this`put, this`body
      ensures Sending(r, base, 17)
    {
      hide Sending;
      var i := 0;
      while i < MOTORS
        invariant 0 <= i <= MOTORS && Sending(r, base, 5 + 4 * i)
      {
        PutField(r.motors[i].command, r, base, 5 + 4 * i);
        PutField(r.motors[i].clicks, r, base, 5 + 4 * i + 1);
        PutField(r.motors[i].current, r, base, 5 + 4 * i + 2);
        PutField(r.motors[i].temp, r, base, 5 + 4 * i + 3);
        i := i + 1;
      }
    }

    method SendInertial(r: Readings, ghost base: seq<uint8>)
      requires Complete(r) && Sending(r, base, 17)
      modifies this`crc, this`sent, this`overflow, this`put, this`body
      ensures Sending(r, base, 27)
    {
      hide Sending, Or;
      PutField(r.accel[0] / 16, r, base, 17);
      PutField(r.accel[1] / 16, r, base, 18);
      PutField(r.accel[2] / 16, r, base, 19);
      PutField(Or(r.accel[0] * 16, r.accel[1] % 16), r, base, 20);
      PutField(r.accel[2] * 16, r, base, 21);
      PutField(r.mag[0] / 4, r, base, 22);
      PutField(r.mag[1] / 4, r, base, 23);
      PutField(r.mag[2] / 4, r, base, 24);
      PutField(r.gyro / 4 - 128, r, base, 25);
      PutField(Pack(r.mag[0], r.mag[1], r.mag[2], r.gyro), r, base, 26);
    }

    method SendDistance(r: Readings, ghost base: seq<uint8>)
      requires Complete(r) && Sending(r, base, 27)
      modifies this`crc, this`sent, this`overflow, this`put, this`body
      ensures Sending(r, base, 40)
    {
      hide Sending, Or;
      var i := 0;
      while i < 10
        invariant 0 <= i <= 10 && Sending(r, base, 27 + i)
      {
        PutField(r.distance[i] / 4, r, base, 27 + i);
        i := i + 1;
      }
      PutField(Pack(r.distance[0], r.distance[1], r.distance[2], r.distance[3]), r, base, 37);
      PutField(Pack(r.distance[4], r.distance[5], r.distance[6], r.distance[7]), r, base, 38);
      PutField(Pack(r.distance[8], r.distance[9], 0, 0), r, base, 39);
    }

    method SendLight(r: Readings, ghost base: seq<uint8>)
      requires Complete(r) && Sending(r, base, 40)
      modifies this`crc, this`sent, this`overflow, this`put, this`body
      ensures Sending(r, base, 45)
    {
      hide Sending, Or;
      PutField(r.light[0] / 4, r, base, 40);
      PutField(r.light[1] / 4, r, base, 41);
      PutField(r.light[2] / 4, r, base, 42);
      PutField(r.light[3] / 4, r, base, 43);
      PutField(Pack(r.light[0], r.light[1], r.light[2], r.light[3]), r, base, 44);
    }

    method SendThermal(r: Readings, ghost base: seq<uint8>)
      requires Complete(r) && Sending(r, base, 45)
      modifies this`crc, this`sent, this`overflow, this`put, this`body
      ensures Sending(r, base, 61)
    {
      hide Sending, Or;
      var i := 0;
      while i < 8
        invariant 0 <= i <= 8 && Sending(r, base, 45 + 2 * i)
      {
        PutField(r.thermal[i], r, base, 45 + 2 * i);
        PutField(r.thermal[i] / 0x100, r, base, 45 + 2 * i + 1);
        i := i + 1;
      }
    }

    method SendIrLight(r: Readings, ghost base: seq<uint8>)
      requires Complete(r) && Sending(r, base, 61)
      modifies this`crc, this`sent, this`overflow, this`put, this`body
      ensures Sending(r, base, 71)
    {
      hide Sending, Or;
      var i := 0;
      while i < 8
        invariant 0 <= i <= 8 && Sending(r, base, 61 + i)
      {
        PutField(r.irLight[i] % 0x100 / 4, r, base, 61 + i);
        i := i + 1;
      }
      PutField(Pack(r.irLight[0], r.irLight[1], r.irLight[2], r.irLight[3]), r, base, 69);
      PutField(Pack(r.irLight[4], r.irLight[5], r.irLight[6], r.irLight[7]), r, base, 70);
    }

    method SendFlags(r: Readings, ghost base: seq<uint8>)
      requires Complete(r) && Sending(r, base, 71)
      modifies this`crc, this`sent, this`overflow, this`put, this`body
      ensures Sending(r, base, 77)
    {
      hide Sending, Or;
      PutField(r.chargeState, r, base, 71);
      PutField(r.errors / 0x1_0000, r, base, 72);
      PutField(r.errors / 0x100, r, base, 73);
      PutField(r.errors, r, base, 74);
      PutField(r.commandsRead, r, base, 75);
      PutField((if r.charging then 128 else 0) + (if r.driving then 64 else 0) + (if r.monitored then 1 else 0), r, base, 76);
    }
  }

  lemma TrailerValues(crc: bv16)
    ensures AsInts(TrailerBytes(crc)) == [HighByte(crc), LowByte(crc)]
  {
  }

  lemma FrameParts(r: Readings)
    requires Complete(r)
    ensures StatusFrame(r) == HEADER + (Payload(r) + AsInts(TrailerBytes(TableCrc(0, AsBytes(Payload(r))))))
  {
    hide Payload, AsInts, TrailerBytes, TableCrc, AsBytes;
  }

  lemma FrameJoined(base: seq<uint8>, payload: seq<uint8>, high: uint8, low: uint8)
    ensures base + HEADER + payload + [high] + [low] == base + (HEADER + (payload + [high, low]))
  {
  }

  lemma KeptTwice(a: seq<uint8>, b: seq<uint8>)
    ensures Kept(Kept(a) + b) == Kept(a + b)
  {
    if |a| > TX_SIZE {
      assert (a[..TX_SIZE] + b)[..TX_SIZE] == a[..TX_SIZE] == (a + b)[..TX_SIZE];
    }
  }

  lemma CrcOfNext(p: seq<uint8>, b: uint8)
    ensures TableCrc(0, AsBytes(p + [b])) == TableStep(TableCrc(0, AsBytes(p)), b as bv8)
  {
    hide TableStep, TableCrc;
    assert AsBytes(p + [b]) == AsBytes(p) + [b as bv8];
    TableCrcNext(0, AsBytes(p), b as bv8);
  }
}
