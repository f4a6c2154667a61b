/**
  The command stream from host to robot: what the host writes for an action, and how the
  bytes are to be read back, in any pieces.
*/
module CommandStream {
  import opened Words

  const HEADER := [0xDE, 0xAD, 0xBE, 0xEF]
  const NUM_LEDS := 16
  // The lighting mode whose frames carry a colour for every LED.
  const CUSTOM := 7

  datatype Colour = Colour(r: uint8, g: uint8, b: uint8)

  // A control drop: the modes are enumerations of at most a byte, velocities any integers.
  datatype Drop = Drop(motorMode: uint8, x: int, y: int, theta: int, ledMode: uint8, leds: seq<Colour>)

  predicate WellFormed(d: Drop) {
    |d.leds| == NUM_LEDS
  }

  // The host's motor modes.
  const WHEEL_SPACE: uint8 := 0
  const XYTHETA_SPACE: uint8 := 1
  const WHEEL_VOLTAGE: uint8 := 2

  datatype Event =
    | Motor(mode: int, m1: int8, m2: int8, m3: int8, ledMode: int)
    | Leds(colours: seq<Colour>)

  datatype State = Header1 | Header2 | Header3 | Header4 | MotorData | LedData

  function PacketSize(s: State): nat {
    match s
    case MotorData => 5
    case LedData => 3 * NUM_LEDS
    case _ => 1
  }

  // What reading finds: the byte, or -1 when there is none.
  function ByteAt(q: seq<uint8>, k: nat): int {
    if k < |q| then q[k] else -1
  }

  function ColoursFrom(q: seq<uint8>, n: nat): (cs: seq<Colour>)
    ensures |cs| == n
    ensures forall k | 0 <= k < n :: cs[k] == ColourAt(q, k)
  {
    if n == 0 then [] else ColoursFrom(q, n - 1) + [ColourAt(q, n - 1)]
  }

  function ColourAt(q: seq<uint8>, k: nat): Colour {
    Colour(ByteAt(q, 3 * k) % 0x100, ByteAt(q, 3 * k + 1) % 0x100, ByteAt(q, 3 * k + 2) % 0x100)
  }

  function Take(s: State, q: seq<uint8>): (State, seq<Event>) {
    match s
    case Header1 => (if ByteAt(q, 0) == HEADER[0] then Header2 else Header1, [])
    case Header2 => (if ByteAt(q, 0) == HEADER[1] then Header3 else Header1, [])
    case Header3 => (if ByteAt(q, 0) == HEADER[2] then Header4 else Header1, [])
    case Header4 => (if ByteAt(q, 0) == HEADER[3] then MotorData else Header1, [])
    case MotorData =>
      (if ByteAt(q, 4) == CUSTOM then LedData else Header1,
       [Motor(ByteAt(q, 0), ToInt8(ByteAt(q, 1)), ToInt8(ByteAt(q, 2)), ToInt8(ByteAt(q, 3)), ByteAt(q, 4))])
    case LedData => (Header1, [Leds(ColoursFrom(q, NUM_LEDS))])
  }

  function Skip(s: State, q: seq<uint8>): seq<uint8> {
    if PacketSize(s) <= |q| then q[PacketSize(s)..] else []
  }

  datatype Parsed = Parsed(state: State, rest: seq<uint8>, events: seq<Event>)

  function Prepend(events: seq<Event>, p: Parsed): Parsed {
    p.(events := events + p.events)
  }

  // The reference: a step is taken as soon as all its bytes are there.
  function Parse(s: State, q: seq<uint8>): Parsed
    decreases |q|
  {
    if |q| < PacketSize(s) then Parsed(s, q, [])
    else Prepend(Take(s, q).1, Parse(Take(s, q).0, Skip(s, q)))
  }

  /* Chunks. */

  lemma TakePrefix(s: State, a: seq<uint8>, b: seq<uint8>)
    requires PacketSize(s) <= |a|
    ensures Take(s, a + b) == Take(s, a) && Skip(s, a + b) == Skip(s, a) + b
  {
    if s == LedData {
      ColoursPrefix(a, b, NUM_LEDS);
    }
  }

  lemma {:induction false} ColoursPrefix(a: seq<uint8>, b: seq<uint8>, n: nat)
    requires 3 * n <= |a|
    ensures ColoursFrom(a + b, n) == ColoursFrom(a, n)
  {
    if n > 0 {
      ColoursPrefix(a, b, n - 1);
    }
  }

  // Reading what is there and the rest later is the same as reading everything at once.
  lemma {:induction false} ParseChunks(s: State, a: seq<uint8>, b: seq<uint8>)
    ensures var p := Parse(s, a);
            Parse(s, a + b) == Prepend(p.events, Parse(p.state, p.rest + b))
    decreases |a|
  {
    hide Take, Parse, Skip;
    ParseStep(s, a);
    if |a| >= PacketSize(s) {
      ParseStep(s, a + b);
      TakePrefix(s, a, b);
      ParseChunks(Take(s, a).0, Skip(s, a), b);
    }
  }

  lemma ParseStep(s: State, q: seq<uint8>)
    ensures Parse(s, q) ==
            if |q| < PacketSize(s) then Parsed(s, q, [])
            else Prepend(Take(s, q).1, Parse(Take(s, q).0, Skip(s, q)))
    ensures PacketSize(s) <= |q| ==> |Skip(s, q)| < |q|
  {
  }

  lemma {:induction false} RestIsShort(s: State, q: seq<uint8>)
    ensures |Parse(s, q).rest| < PacketSize(Parse(s, q).state)
    decreases |q|
  {
    hide Take;
    if |q| >= PacketSize(s) {
      RestIsShort(Take(s, q).0, Skip(s, q));
    }
  }

  /* Frames. */

  function LedBytes(leds: seq<Colour>): (bytes: seq<uint8>)
    ensures |bytes| == 3 * |leds|
    ensures forall k | 0 <= k < |leds| :: ColourAt(bytes, k) == leds[k]
  {
    if leds == [] then [] else
      var n := |leds| - 1;
      var front := LedBytes(leds[..n]);
      var bytes := front + [leds[n].r, leds[n].g, leds[n].b];
      assert forall k | 0 <= k < n :: ColourAt(bytes, k) == ColourAt(front, k);
      bytes
  }

  function MotorBytes(d: Drop): seq<uint8> {
    [d.motorMode, d.x % 0x100, d.y % 0x100, d.theta % 0x100, d.ledMode]
  }

  function Frame(d: Drop): seq<uint8> {
    HEADER + MotorBytes(d) + if d.ledMode == CUSTOM then LedBytes(d.leds) else []
  }

  // Byte by byte: the header, the modes and velocities, and in custom mode the colours.
  lemma FrameLayout(d: Drop)
    ensures Frame(d)[..9] == [0xDE, 0xAD, 0xBE, 0xEF, d.motorMode, d.x % 0x100, d.y % 0x100, d.theta % 0x100, d.ledMode]
    ensures |Frame(d)| == if d.ledMode == 7 then 9 + 3 * |d.leds| else 9
    ensures d.ledMode == 7 ==>
              forall k | 0 <= k < |d.leds| ::
                var c := Frame(d)[9 + 3 * k..12 + 3 * k];
                c == [d.leds[k].r, d.leds[k].g, d.leds[k].b]
  {
    hide LedBytes;
    if d.ledMode == CUSTOM {
      var bytes := LedBytes(d.leds);
      forall k | 0 <= k < |d.leds|
        ensures Frame(d)[9 + 3 * k..12 + 3 * k] == [d.leds[k].r, d.leds[k].g, d.leds[k].b]
      {
        assert ColourAt(bytes, k) == d.leds[k];
        assert Frame(d)[9 + 3 * k..12 + 3 * k] == bytes[3 * k..3 * k + 3];
      }
    }
  }

  function Frames(drops: seq<Drop>): seq<uint8> {
    if drops == [] then [] else Frame(drops[0]) + Frames(drops[1..])
  }

  function Meaning(d: Drop): seq<Event> {
    [Motor(d.motorMode, ToInt8(d.x), ToInt8(d.y), ToInt8(d.theta), d.ledMode)]
    + if d.ledMode == CUSTOM then [Leds(d.leds)] else []
  }

  function Meanings(drops: seq<Drop>): seq<Event> {
    if drops == [] then [] else Meaning(drops[0]) + Meanings(drops[1..])
  }

  lemma HeaderStep(s: State, q: seq<uint8>)
    requires q != []
    ensures s == Header1 && q[0] == HEADER[0] ==> Parse(s, q) == Parse(Header2, q[1..])
    ensures s == Header2 && q[0] == HEADER[1] ==> Parse(s, q) == Parse(Header3, q[1..])
    ensures s == Header3 && q[0] == HEADER[2] ==> Parse(s, q) == Parse(Header4, q[1..])
    ensures s == Header4 && q[0] == HEADER[3] ==> Parse(s, q) == Parse(MotorData, q[1..])
  {
  }

  lemma ParseHeader(q: seq<uint8>)
    ensures Parse(Header1, HEADER + q) == Parse(MotorData, q)
  {
    var w := HEADER + q;
    HeaderStep(Header1, w);
    HeaderStep(Header2, w[1..]);
    HeaderStep(Header3, w[2..]);
    HeaderStep(Header4, w[3..]);
    assert w[1..][1..] == w[2..] && w[2..][1..] == w[3..] && w[3..][1..] == q;
  }

  lemma TakeMotorBytes(d: Drop)
    ensures Take(MotorData, MotorBytes(d))
         == (if d.ledMode == CUSTOM then LedData else Header1,
             [Motor(d.motorMode, ToInt8(d.x), ToInt8(d.y), ToInt8(d.theta), d.ledMode)])
  {
  }

  lemma TakeLedBytes(d: Drop)
    requires WellFormed(d)
    ensures Take(LedData, LedBytes(d.leds)) == (Header1, [Leds(d.leds)])
  {
    assert ColoursFrom(LedBytes(d.leds), NUM_LEDS) == d.leds;
  }

  lemma ParsePacket(s: State, packet: seq<uint8>, q: seq<uint8>)
    requires |packet| == PacketSize(s)
    ensures Parse(s, packet + q) == Prepend(Take(s, packet).1, Parse(Take(s, packet).0, q))
  {
    hide Take;
    TakePrefix(s, packet, q);
    assert Skip(s, packet + q) == q;
  }

  lemma ParseFrame(d: Drop, q: seq<uint8>)
    requires WellFormed(d)
    ensures Parse(Header1, Frame(d) + q) == Prepend(Meaning(d), Parse(Header1, q))
  {
    hide Take, LedBytes, MotorBytes, Parse;
    var tail := if d.ledMode == CUSTOM then LedBytes(d.leds) else [];
    var body := MotorBytes(d);
    MotorBytesSize(d);
    assert Frame(d) + q == HEADER + (body + (tail + q));
    hide Frame;
    ParseHeader(body + (tail + q));
    ParsePacket(MotorData, body, tail + q);
    TakeMotorBytes(d);
    if d.ledMode == CUSTOM {
      ParsePacket(LedData, tail, q);
      TakeLedBytes(d);
    } else {
      assert tail + q == q;
    }
  }

  lemma MotorBytesSize(d: Drop)
    ensures |MotorBytes(d)| == PacketSize(MotorData)
  {
  }

  // Any sequence of actions is read back, and the reader is left between frames.
  lemma {:induction false} ParseFrames(drops: seq<Drop>)
    requires forall d | d in drops :: WellFormed(d)
    ensures Parse(Header1, Frames(drops)) == Parsed(Header1, [], Meanings(drops))
  {
    hide Frame, Meaning;
    if drops != [] {
      ParseFrames(drops[1..]);
      ParseFrame(drops[0], Frames(drops[1..]));
    }
  }

  lemma VelocitiesSurvive(d: Drop)
    requires -0x80 <= d.x < 0x80 && -0x80 <= d.y < 0x80 && -0x80 <= d.theta < 0x80
    ensures Meaning(d)[0] == Motor(d.motorMode, d.x, d.y, d.theta, d.ledMode)
  {
  }

  /* The reader of the robot, which trusts a count that is one too high when the unread bytes
     go around the end of the buffer, that is, when there are more of them than cells
     before the DMA pointer. */

  function CountError(q: seq<uint8>, dma: nat): nat {
    if dma < |q| then 1 else 0
  }

  function RingParse(s: State, q: seq<uint8>, dma: nat): Parsed
    decreases |q|
  {
    if |q| + CountError(q, dma) < PacketSize(s) then Parsed(s, q, [])
    else Prepend(Take(s, q).1, RingParse(Take(s, q).0, Skip(s, q), dma))
  }

  // One byte of a packet is missing, and the others go around the end.
  predicate Misread(p: Parsed, dma: nat) {
    |p.rest| == PacketSize(p.state) - 1 && dma < |p.rest|
  }

  // Exactly then the robot takes the missing byte to be there.
  lemma {:induction false} RingParseMeaning(s: State, q: seq<uint8>, dma: nat)
    ensures var p := Parse(s, q);
            RingParse(s, q, dma) ==
            if Misread(p, dma) then Parsed(Header1, [], p.events + Take(p.state, p.rest).1) else p
    decreases |q|
  {
    ParseStep(s, q);
    if |q| >= PacketSize(s) {
      hide Take, Parse, Skip;
      RingParseMeaning(Take(s, q).0, Skip(s, q), dma);
    } else if |q| + CountError(q, dma) == PacketSize(s) {
      hide Parse;
      assert RingParse(Take(s, q).0, [], dma) == Parsed(Take(s, q).0, [], []);
    }
  }

  lemma ReadsRightIff(s: State, q: seq<uint8>, dma: nat)
    ensures RingParse(s, q, dma) == Parse(s, q) <==> !Misread(Parse(s, q), dma)
  {
    hide Take, Parse, RingParse;
    RingParseMeaning(s, q, dma);
  }

  // What that costs: the velocities get through, the lighting mode or the last blue is lost.
  lemma MisreadCosts(d: Drop)
    requires WellFormed(d)
    ensures Take(MotorData, MotorBytes(d)[..4])
         == (Header1, [Motor(d.motorMode, ToInt8(d.x), ToInt8(d.y), ToInt8(d.theta), -1)])
    ensures Take(LedData, LedBytes(d.leds)[..47])
         == (Header1, [Leds(d.leds[..15] + [d.leds[15].(b := 0xFF)])])
  {
    var bytes := LedBytes(d.leds);
    var short := bytes[..47];
    forall k | 0 <= k < NUM_LEDS
      ensures ColourAt(short, k) == if k < 15 then d.leds[k] else d.leds[15].(b := 0xFF)
    {
      assert ColourAt(bytes, k) == d.leds[k];
    }
    assert ColoursFrom(short, NUM_LEDS) == d.leds[..15] + [d.leds[15].(b := 0xFF)];
  }

  // It does happen: four bytes of an action are there, the last of them at the start of the
  // buffer.
  lemma MisreadHappens()
    ensures Misread(Parse(Header1, HEADER + [0, 1, 2, 3]), 1)
  {
    ParseHeader([0, 1, 2, 3]);
  }
}
