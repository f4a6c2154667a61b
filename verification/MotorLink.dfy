/**
  The lock-step SPI link between the ARM and a wheel controller: five bytes each way, with
  no resynchronization but the header byte.
*/
module MotorLink {
  import opened Words
  import opened WheelControl
  import Slew

  predicate IsHeader(b: uint8) {
    b == SPI_PACKET_HEADER || b == SPI_PWM_HEADER
  }

  function PacketBytes(p: Slew.MotorPacket): seq<uint8> {
    [p.header, p.setpoint, p.volt, 0, 0]
  }

  // What the ARM's periodic event queues for a wheel.
  predicate FromArm(p: Slew.MotorPacket, speed: int) {
    IsHeader(p.header) && Abs(speed) <= Slew.MAX_SPEED && (p.setpoint == speed % 0x100 || p.setpoint == 0)
  }

  // The slave's state after a stream of bytes.
  function Feed(rstate: uint8, bytes: seq<uint8>): uint8
    decreases |bytes|
  {
    if bytes == [] then rstate else Feed(NextState(rstate, bytes[0]), bytes[1..])
  }

  lemma {:induction false} FeedConcat(r: uint8, a: seq<uint8>, b: seq<uint8>)
    ensures Feed(r, a + b) == Feed(Feed(r, a), b)
    decreases |a|
  {
    if a == [] {
      assert a + b == b;
    } else {
      assert (a + b)[1..] == a[1..] + b;
      FeedConcat(NextState(r, a[0]), a[1..], b);
    }
  }

  lemma FeedPacket(r: uint8, p: Slew.MotorPacket)
    ensures Feed(r, PacketBytes(p))
         == NextState(NextState(NextState(NextState(NextState(r, p.header), p.setpoint), p.volt), 0), 0)
  {
    var b := PacketBytes(p);
    assert b[1..] == [p.setpoint, p.volt, 0, 0] && b[1..][1..] == [p.volt, 0, 0];
    assert [p.volt, 0, 0][1..] == [0, 0] && [0 as int, 0][1..] == [0] && [0 as int][1..] == [];
    assert Feed(r, b) == Feed(NextState(r, p.header), b[1..]);
    var r2 := NextState(NextState(r, p.header), p.setpoint);
    assert Feed(r, b) == Feed(r2, [p.volt, 0, 0]) == Feed(NextState(r2, p.volt), [0, 0]);
    var r3 := NextState(r2, p.volt);
    assert Feed(r3, [0, 0]) == Feed(NextState(r3, 0), [0]) == Feed(NextState(NextState(r3, 0), 0), []);
  }

  // A speed within range never looks like a header.
  lemma SpeedIsNoHeader(p: Slew.MotorPacket, speed: int)
    requires FromArm(p, speed)
    ensures !IsHeader(p.setpoint)
    ensures p.setpoint == speed % 0x100 ==> ToInt8(p.setpoint) == speed
  {
    if speed >= 0 {
      Remainder(speed, 0, speed, 0x100);
    } else {
      Remainder(speed, -1, speed + 0x100, 0x100);
    }
    Remainder(p.setpoint, 0, p.setpoint, 0x100);
  }

  // One packet brings any slave back into step, unless it was in its last two states and the
  // bus voltage reads as a header: 12.2 or 12.3 volts.  Then it stays out of step by three.
  lemma OnePacketAlignsIff(r: uint8, p: Slew.MotorPacket, speed: int)
    requires FromArm(p, speed)
    ensures Feed(r, PacketBytes(p)) == if r >= 3 && IsHeader(p.volt) then 3 else 0
  {
    FeedPacket(r, p);
    SpeedIsNoHeader(p, speed);
  }

  function Stream(packets: seq<Slew.MotorPacket>): seq<uint8> {
    if packets == [] then [] else PacketBytes(packets[0]) + Stream(packets[1..])
  }

  // In step once, in step for good; and out of step as long as, and no longer than, every
  // voltage looks like a header.
  lemma {:induction false} StreamKeepsStep(packets: seq<Slew.MotorPacket>, speeds: seq<int>)
    requires |packets| == |speeds| && forall i | 0 <= i < |packets| :: FromArm(packets[i], speeds[i])
    ensures Feed(0, Stream(packets)) == 0
    ensures Feed(3, Stream(packets)) == if forall p | p in packets :: IsHeader(p.volt) then 3 else 0
    decreases |packets|
  {
    if packets != [] {
      OnePacketAlignsIff(0, packets[0], speeds[0]);
      OnePacketAlignsIff(3, packets[0], speeds[0]);
      FeedConcat(0, PacketBytes(packets[0]), Stream(packets[1..]));
      FeedConcat(3, PacketBytes(packets[0]), Stream(packets[1..]));
      StreamKeepsStep(packets[1..], speeds[1..]);
    }
  }

  // A whole packet exchanged with a slave that is in step: byte one becomes the setpoint,
  // byte two the bus voltage, and slots one to four bring back clicks, current, temperature
  // and the last output.
  method ExchangePacket(c: Controller, p: Slew.MotorPacket, sensors: seq<Sensors>) returns (rx: seq<uint8>)
    requires c.Valid() && c.rstate == 0 && IsHeader(p.header) && |sensors| == 5
    modifies c
    ensures c.Valid() && c.rstate == 0 && c.spdr == 0
    ensures c.setpoint == ToInt8(p.setpoint) && c.vNow == p.volt
    ensures c.pwmMode == (p.header == SPI_PWM_HEADER)
    ensures c.everHeard && c.silence == 0
    ensures rx == [old(c.spdr), (sensors[0].clicks / 4) % 0x100, sensors[1].current,
                   sensors[2].temperature, old(c.voltageOut)]
  {
    var r0 := c.SpiByte(p.header, sensors[0]);
    var r1 := c.SpiByte(p.setpoint, sensors[1]);
    var r2 := c.SpiByte(p.volt, sensors[2]);
    var r3 := c.SpiByte(0, sensors[3]);
    var r4 := c.SpiByte(0, sensors[4]);
    rx := [r0, r1, r2, r3, r4];
  }

  // The packet a slave three bytes out of step reads: it takes a padding byte for the
  // setpoint, so the wheel is told to stop.
  method ExchangeOutOfStep(c: Controller, p: Slew.MotorPacket, speed: int, sensors: seq<Sensors>)
    requires c.Valid() && c.rstate == 3 && |sensors| == 5
    requires FromArm(p, speed) && IsHeader(p.volt)
    modifies c
    ensures c.Valid() && c.rstate == 3
    ensures c.setpoint == 0
  {
    SpeedIsNoHeader(p, speed);
    var r0 := c.SpiByte(p.header, sensors[0]);
    var r1 := c.SpiByte(p.setpoint, sensors[1]);
    var r2 := c.SpiByte(p.volt, sensors[2]);
    var r3 := c.SpiByte(0, sensors[3]);
    var r4 := c.SpiByte(0, sensors[4]);
  }
}
