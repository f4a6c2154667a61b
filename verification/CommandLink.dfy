/**
  Both ends of the command link: the host's writer, and the robot's reader on its serial ring.
*/
module CommandLink {
  import opened Words
  import opened Wrappers
  import opened CommandStream
  import opened SerialRing

  /* The host. */

  class ActionWriter {
    const motorData: array<uint8>
    const ledData: array<uint8>
    var ledMode: uint8
    var dataWritten: bool

    ghost predicate Valid()
      reads this, motorData
    {
      && motorData != ledData && motorData.Length == 9 && ledData.Length == 3 * NUM_LEDS
      && motorData[..4] == HEADER
    }

    // What the writing thread will send next.
    ghost function Pending(): seq<uint8>
      reads this, motorData, ledData
    {
      motorData[..] + if ledMode == CUSTOM then ledData[..] else []
    }

    constructor ()
      ensures Valid() && fresh(motorData) && fresh(ledData) && dataWritten
    {
      motorData := new uint8[9] [0xDE, 0xAD, 0xBE, 0xEF, 0, 0, 0, 0, 0];
      ledData := new uint8[48](_ => 0);
      ledMode := 0;
      dataWritten := true;
    }

    method PrepareActionData(d: Drop)
      requires Valid() && WellFormed(d)
      modifies this, motorData, ledData
      ensures Valid() && Pending() == Frame(d) && !dataWritten
    {
      dataWritten := false;
      motorData[4] := d.motorMode;
      motorData[5] := d.x % 0x100;
      motorData[6] := d.y % 0x100;
      motorData[7] := d.theta % 0x100;
      ledMode := d.ledMode;
      motorData[8] := d.ledMode;
      assert motorData[..] == HEADER + MotorBytes(d);
      if d.ledMode == CUSTOM {
        PrepareLeds(d);
      }
    }

    method PrepareLeds(d: Drop)
      requires Valid() && WellFormed(d)
      modifies ledData
      ensures ledData[..] == LedBytes(d.leds)
    {
      hide LedBytes;
      var i := 0;
      NoLedBytes();
      while i < NUM_LEDS
        invariant 0 <= i <= NUM_LEDS
        invariant ledData[..3 * i] == LedBytes(d.leds[..i])
      {
        MoreLedBytes(d.leds[..i], d.leds[i]);
        assert d.leds[..i + 1] == d.leds[..i] + [d.leds[i]];
        ledData[3 * i] := d.leds[i].r;
        ledData[3 * i + 1] := d.leds[i].g;
        ledData[3 * i + 2] := d.leds[i].b;
        assert ledData[..3 * (i + 1)] == ledData[..3 * i] + [d.leds[i].r, d.leds[i].g, d.leds[i].b];
        i := i + 1;
      }
      assert d.leds[..i] == d.leds;
    }

    method WriteActionToSerialLink() returns (wire: seq<uint8>)
      requires Valid()
      modifies this`dataWritten
      ensures Valid() && wire == Pending() == old(Pending()) && dataWritten
    {
      wire := motorData[..];
      if ledMode == CUSTOM {
        wire := wire + ledData[..];
      }
      dataWritten := true;
    }
  }

  lemma NoLedBytes()
    ensures LedBytes([]) == []
  {
  }

  lemma MoreLedBytes(leds: seq<Colour>, c: Colour)
    ensures LedBytes(leds + [c]) == LedBytes(leds) + [c.r, c.g, c.b]
  {
    assert (leds + [c])[..|leds|] == leds;
  }

  /* The robot. */

  const MOTOR_EXIT := 0x68
  const LED_EXIT := 0x67

  // What a call asks of the drive and the power electronics.
  datatype Action =
    | Keep
    | Slew(m1: int8, m2: int8, m3: int8)
    | XyTheta(m1: int8, m2: int8, m3: int8)
    | Voltage(m1: int8, m2: int8, m3: int8)
    | Halt
    | Exit
    | Charging(on: bool)
    | Reference(on: bool)
    | Amplifier(on: bool)

  datatype Lights = Unchanged | Clear | Battery | Ball | Error | Emergency | Busy | Custom

  function Act(e: Event, disabled: bool): Action
    requires e.Motor?
  {
    match e.mode
    case 0 => if disabled then Keep else Slew(e.m1, e.m2, e.m3)
    case 1 => if disabled then Keep else XyTheta(e.m1, e.m2, e.m3)
    case 2 => if disabled then Keep else Voltage(e.m1, e.m2, e.m3)
    case 0x68 => if e.ledMode == LED_EXIT then Exit else Keep
    case 0x69 => Charging(true)
    case 0x6A => if disabled then Keep else Charging(false)
    case 0x6B => Reference(true)
    case 0x6C => Reference(false)
    case 0x6D => Amplifier(true)
    case 0x6E => Amplifier(false)
    case _ => if disabled then Keep else Halt
  }

  predicate Moves(a: Action) {
    a.Slew? || a.XyTheta? || a.Voltage? || a.Halt?
  }

  // A disabled interface never moves the robot, but leaving it is not all that still works.
  lemma DisabledStillActs(e: Event)
    requires e.Motor?
    ensures !Moves(Act(e, true))
    ensures Act(e, true) == Act(e, false)
       <==> MOTOR_EXIT <= e.mode <= 0x6E && e.mode != 0x6A
    ensures Act(e, true) != Act(e, false) ==> Act(e, true) == Keep
  {
  }

  function LightsFor(ledMode: int, disabled: bool): Lights {
    if disabled then Unchanged else
      match ledMode
      case 1 => Clear
      case 2 => Battery
      case 3 => Ball
      case 4 => Error
      case 5 => Emergency
      case 6 => Busy
      case _ => Unchanged
  }

  function LastMotor(events: seq<Event>): (r: Option<Event>)
    ensures r.Some? ==> r.value.Motor?
  {
    if events == [] then None
    else if events[|events| - 1].Motor? then Some(events[|events| - 1])
    else LastMotor(events[..|events| - 1])
  }

  function LastLeds(events: seq<Event>): (r: Option<Event>)
    ensures r.Some? ==> r.value.Leds?
  {
    if events == [] then None
    else if events[|events| - 1].Leds? then Some(events[|events| - 1])
    else LastLeds(events[..|events| - 1])
  }

  class CommandReader {
    var state: State
    var motorMode: int
    var ledMode: int
    const leds: array<Colour>
    ghost var decoded: seq<Event>

    ghost predicate Valid() {
      leds.Length == NUM_LEDS
    }

    constructor ()
      ensures Valid() && fresh(leds) && state == Header1 && decoded == []
    {
      state, motorMode, ledMode, decoded := Header1, 0, 0, [];
      leds := new Colour[16](_ => Colour(0, 0, 0));
    }

    // Takes the colours, three characters each.
    method ReadLeds(ring: Ring, ghost q: seq<uint8>)
      requires Valid() && Holds(ring, q)
      modifies leds, ring`head, ring`scan, ring`consumed
      ensures Holds(ring, Skip(LedData, q)) && ring.deposited == old(ring.deposited)
      ensures leds[..] == ColoursFrom(q, NUM_LEDS)
    {
      hide ColoursFrom, ByteAt, ColourAt, Holds;
      var i := 0;
      while i < NUM_LEDS
        invariant 0 <= i <= NUM_LEDS && ring.deposited == old(ring.deposited)
        invariant Holds(ring, Drained(q, 3 * i))
        invariant forall k | 0 <= k < i :: leds[k] == ColourAt(q, k)
      {
        hide Drained;
        var c := ReadColour(ring, q, i);
        leds[i] := c;
        i := i + 1;
      }
    }

    method ReadColour(ring: Ring, ghost q: seq<uint8>, ghost k: nat) returns (c: Colour)
      requires Holds(ring, Drained(q, 3 * k))
      modifies ring`head, ring`scan, ring`consumed
      ensures Holds(ring, Drained(q, 3 * (k + 1))) && ring.deposited == old(ring.deposited)
      ensures c == ColourAt(q, k)
    {
      hide Holds, ByteAt, Drained;
      var r := Read(ring, q, 3 * k);
      var g := Read(ring, q, 3 * k + 1);
      var b := Read(ring, q, 3 * k + 2);
      c := Colour(r % 0x100, g % 0x100, b % 0x100);
    }

    method ReadMotor(ring: Ring, ghost q: seq<uint8>) returns (m1: int8, m2: int8, m3: int8)
      requires Holds(ring, q)
      modifies this`motorMode, this`ledMode, ring`head, ring`scan, ring`consumed
      ensures Holds(ring, Skip(MotorData, q)) && ring.deposited == old(ring.deposited)
      ensures [Motor(motorMode, m1, m2, m3, ledMode)] == Take(MotorData, q).1
    {
      hide Holds, ByteAt, ToInt8;
      motorMode := Read(ring, q, 0);
      var c := Read(ring, q, 1);
      m1 := ToInt8(c);
      c := Read(ring, q, 2);
      m2 := ToInt8(c);
      c := Read(ring, q, 3);
      m3 := ToInt8(c);
      ledMode := Read(ring, q, 4);
    }

    // The n-th character of q, when those before it have been read.
    method Read(ring: Ring, ghost q: seq<uint8>, ghost n: nat) returns (c: int)
      requires Holds(ring, Drained(q, n))
      modifies ring`head, ring`scan, ring`consumed
      ensures Holds(ring, Drained(q, n + 1)) && ring.deposited == old(ring.deposited)
      ensures c == ByteAt(q, n)
    {
      DrainedNext(q, n);
      c := ring.GetChar();
    }

    // The characters that the driver counts.
    method Count(ring: Ring, ghost q: seq<uint8>) returns (n: int)
      requires Holds(ring, q)
      ensures n == |q| + CountError(q, ring.dma)
    {
      ring.Wraps();
      n := ring.GetNumChars();
    }

    // Decodes what is buffered, then acts on the last motor packet of the call.
    method GetCommands(ring: Ring, disabled: bool) returns (action: Action, lights: Lights)
      requires Valid() && ring.Valid()
      modifies this, leds, ring`head, ring`scan, ring`consumed
      ensures Valid() && ring.Valid() && ring.deposited == old(ring.deposited)
      ensures var p := RingParse(old(state), old(ring.Unread()), ring.dma);
              && state == p.state && ring.Unread() == p.rest && decoded == old(decoded) + p.events
              && action == LastAction(p.events, disabled)
              && Shows(leds[..], LastLeds(p.events), old(leds[..]))
              && match LastMotor(p.events) {
                 case None => motorMode == old(motorMode) && ledMode == old(ledMode)
                 case Some(e) => motorMode == (if action == Halt then 0 else e.mode) && ledMode == e.ledMode
              }
      ensures lights == LightsFor(ledMode, disabled)
    {
      var motorDataRead, m1, m2, m3 := Decode(ring, ring.Unread());
      var ledDataRead := false;
      action := Keep;
      if motorDataRead {
        action := Act(Motor(motorMode, m1, m2, m3, ledMode), disabled);
        if action == Halt {
          motorMode := 0;
        }
      }
      lights := LightsFor(ledMode, disabled);
      if !disabled && (ledMode == 0 || ledMode == CUSTOM) && ledDataRead {
        lights := Custom;
      }
    }

    // The loop over what is buffered; nothing tells its caller whether colours came in.
    method Decode(ring: Ring, ghost q0: seq<uint8>)
        returns (motorDataRead: bool, m1: int8, m2: int8, m3: int8)
      requires Valid() && Holds(ring, q0)
      modifies this, leds, ring`head, ring`scan, ring`consumed
      ensures Valid() && ring.deposited == old(ring.deposited)
      ensures var p := RingParse(old(state), q0, ring.dma);
              && state == p.state && Holds(ring, p.rest) && decoded == old(decoded) + p.events
              && LastMotor(p.events)
              == (if motorDataRead then Some(Motor(motorMode, m1, m2, m3, ledMode)) else None)
              && Shows(leds[..], LastLeds(p.events), old(leds[..]))
      ensures !motorDataRead ==> motorMode == old(motorMode) && ledMode == old(ledMode)
    {
      hide RingParse, Take, Skip, LastMotor, LastLeds, Holds, ColoursFrom, ByteAt, Prepend;
      m1, m2, m3, motorDataRead := 0, 0, 0, false;
      var numCharsRead := 0;
      ghost var q, events: seq<Event> := q0, [];
      NothingLast();
      NothingBefore(RingParse(state, q0, ring.dma));
      HoldsLessThanAll(ring, q0);
      while true
        invariant Valid() && Holds(ring, q) && ring.deposited == old(ring.deposited)
        invariant RingParse(old(state), q0, ring.dma) == Prepend(events, RingParse(state, q, ring.dma))
        invariant decoded == old(decoded) + events
        invariant LastMotor(events)
               == if motorDataRead then Some(Motor(motorMode, m1, m2, m3, ledMode)) else None
        invariant !motorDataRead ==> motorMode == old(motorMode) && ledMode == old(ledMode)
        invariant Shows(leds[..], LastLeds(events), old(leds[..]))
        invariant numCharsRead + |q| == |q0| || (q == [] && numCharsRead == |q0| + 1)
        decreases |q|
      {
        RingStep(state, q, ring.dma);
        PrependTwice(events, Take(state, q).1, RingParse(Take(state, q).0, Skip(state, q), ring.dma));
        var n := Count(ring, q);
        if n < PacketSize(state) || numCharsRead > SIZE {
          break;
        }
        ghost var before := state;
        numCharsRead := numCharsRead + PacketSize(state);
        if state == MotorData {
          m1, m2, m3 := ReadMotor(ring, q);
          motorDataRead := true;
          state := if ledMode == CUSTOM then LedData else Header1;
        } else if state == LedData {
          ReadLeds(ring, q);
          state := Header1;
        } else {
          ReadHeader(ring, q);
        }
        LastOfNext(events, Take(before, q).1);
        decoded := decoded + Take(before, q).1;
        events := events + Take(before, q).1;
        q := Skip(before, q);
      }
      NothingAfterwards(events, state, q);
    }

    method ReadHeader(ring: Ring, ghost q: seq<uint8>)
      requires Holds(ring, q) && state !in {MotorData, LedData}
      modifies this`state, ring`head, ring`scan, ring`consumed
      ensures Holds(ring, Skip(old(state), q)) && ring.deposited == old(ring.deposited)
      ensures Take(old(state), q) == (state, [])
    {
      hide Holds, ByteAt;
      var c := Read(ring, q, 0);
      match state {
        case Header1 => state := if c == HEADER[0] then Header2 else Header1;
        case Header2 => state := if c == HEADER[1] then Header3 else Header1;
        case Header3 => state := if c == HEADER[2] then Header4 else Header1;
        case Header4 => state := if c == HEADER[3] then MotorData else Header1;
      }
    }
  }

  // The lamps hold the last colours received, if any were.
  predicate Shows(leds: seq<Colour>, last: Option<Event>, before: seq<Colour>) {
    match last
    case Some(Leds(colours)) => leds == colours
    case _ => leds == before
  }

  lemma LastOfNext(events: seq<Event>, next: seq<Event>)
    requires |next| <= 1
    ensures LastMotor(events + next) == if |next| == 1 && next[0].Motor? then Some(next[0]) else LastMotor(events)
    ensures LastLeds(events + next) == if |next| == 1 && next[0].Leds? then Some(next[0]) else LastLeds(events)
  {
    if next != [] {
      assert (events + next)[..|events|] == events;
    } else {
      assert events + next == events;
    }
  }

  lemma {:induction false} LastOfJoined(a: seq<Event>, b: seq<Event>)
    ensures LastMotor(a + b) == if LastMotor(b).Some? then LastMotor(b) else LastMotor(a)
    decreases |b|
  {
    if b == [] {
      assert a + b == a;
    } else {
      var n := |b| - 1;
      assert (a + b)[..|a| + n] == a + b[..n];
      LastOfJoined(a, b[..n]);
    }
  }

  // Of the actions that one call finds, the host's last one is carried out, in its own mode.
  lemma LastDropActs(drops: seq<Drop>, d: Drop)
    ensures var action := LastAction(Meanings(drops + [d]), false);
            && (d.motorMode == WHEEL_SPACE ==> action == Slew(ToInt8(d.x), ToInt8(d.y), ToInt8(d.theta)))
            && (d.motorMode == XYTHETA_SPACE ==> action == XyTheta(ToInt8(d.x), ToInt8(d.y), ToInt8(d.theta)))
            && (d.motorMode == WHEEL_VOLTAGE ==> action == Voltage(ToInt8(d.x), ToInt8(d.y), ToInt8(d.theta)))
            && (d.motorMode !in {WHEEL_SPACE, XYTHETA_SPACE, WHEEL_VOLTAGE} && d.motorMode < MOTOR_EXIT ==> action == Halt)
            && (d.motorMode == 0x68 ==> action == if d.ledMode == 0x67 then Exit else Keep)
            && (d.motorMode == 0x69 ==> action == Charging(true)) && (d.motorMode == 0x6A ==> action == Charging(false))
            && (d.motorMode == 0x6B ==> action == Reference(true)) && (d.motorMode == 0x6C ==> action == Reference(false))
            && (d.motorMode == 0x6D ==> action == Amplifier(true)) && (d.motorMode == 0x6E ==> action == Amplifier(false))
            && (d.motorMode > 0x6E ==> action == Halt)
  {
    hide ToInt8;
    MeaningsOfMore(drops, d);
    LastOfJoined(Meanings(drops), Meaning(d));
    LastOfMeaning(d);
  }

  // Its lighting mode is the one that stays, and shows as the host's enumeration names it,
  // but for its own colours.
  lemma LastDropLights(drops: seq<Drop>, d: Drop)
    ensures var last := LastMotor(Meanings(drops + [d]));
            && last.Some? && last.value.ledMode == d.ledMode
            && (d.ledMode == 7 ==> LastLeds(Meanings(drops + [d])) == Some(Leds(d.leds)))
            && LightsFor(d.ledMode, true) == Unchanged
            && var lights := LightsFor(d.ledMode, false);
               && (d.ledMode == 0 || d.ledMode > 6 ==> lights == Unchanged)
               && (d.ledMode == 1 ==> lights == Clear) && (d.ledMode == 2 ==> lights == Battery)
               && (d.ledMode == 3 ==> lights == Ball) && (d.ledMode == 4 ==> lights == Error)
               && (d.ledMode == 5 ==> lights == Emergency) && (d.ledMode == 6 ==> lights == Busy)
  {
    hide ToInt8;
    MeaningsOfMore(drops, d);
    LastOfJoined(Meanings(drops), Meaning(d));
    LastOfMeaning(d);
  }

  lemma LastOfMeaning(d: Drop)
    ensures LastMotor(Meaning(d)) == Some(Meaning(d)[0])
  {
    hide ToInt8;
    LastOfNext(Meaning(d)[..1], Meaning(d)[1..]);
    assert Meaning(d)[..1] + Meaning(d)[1..] == Meaning(d);
  }

  lemma {:induction false} MeaningsOfMore(drops: seq<Drop>, d: Drop)
    ensures Meanings(drops + [d]) == Meanings(drops) + Meaning(d)
  {
    hide Meaning;
    if drops != [] {
      assert (drops + [d])[1..] == drops[1..] + [d];
      MeaningsOfMore(drops[1..], d);
    } else {
      assert Meanings([]) == [] && [d][1..] == [];
    }
  }

  lemma HoldsLessThanAll(ring: Ring, q: seq<uint8>)
    requires Holds(ring, q)
    ensures |q| < SIZE
  {
  }

  lemma NothingBefore(p: Parsed)
    ensures Prepend([], p) == p
  {
  }

  lemma NothingAfterwards(events: seq<Event>, s: State, q: seq<uint8>)
    ensures Prepend(events, Parsed(s, q, [])) == Parsed(s, q, events)
  {
  }

  lemma NothingLast()
    ensures LastMotor([]) == None && LastLeds([]) == None
  {
  }

  function LastAction(events: seq<Event>, disabled: bool): Action {
    match LastMotor(events)
    case None => Keep
    case Some(e) => Act(e, disabled)
  }

  lemma RingStep(s: State, q: seq<uint8>, dma: nat)
    ensures RingParse(s, q, dma) ==
            if |q| + CountError(q, dma) < PacketSize(s) then Parsed(s, q, [])
            else Prepend(Take(s, q).1, RingParse(Take(s, q).0, Skip(s, q), dma))
    ensures s != MotorData && s != LedData ==> Take(s, q).1 == []
    ensures s == MotorData ==> Take(s, q).0 == if ByteAt(q, 4) == CUSTOM then LedData else Header1
    ensures s == MotorData ==> |Take(s, q).1| == 1 && Take(s, q).1[0].Motor? && Take(s, q).1[0].ledMode == ByteAt(q, 4)
    ensures s == LedData ==> Take(s, q) == (Header1, [Leds(ColoursFrom(q, NUM_LEDS))])
    ensures |q| + CountError(q, dma) >= PacketSize(s) ==>
      |Skip(s, q)| + PacketSize(s) == |q| || (Skip(s, q) == [] && PacketSize(s) == |q| + 1)
  {
  }

  ghost predicate Holds(ring: Ring, q: seq<uint8>)
    reads ring, ring.buf
  {
    ring.Valid() && ring.Unread() == q
  }

  // What is left of q after n reads.
  function Drained(q: seq<uint8>, n: nat): seq<uint8> {
    if n <= |q| then q[n..] else []
  }

  lemma DrainedNext(q: seq<uint8>, n: nat)
    ensures Drained(q, n) == [] ==> ByteAt(q, n) == -1 && Drained(q, n + 1) == []
    ensures Drained(q, n) != [] ==>
              ByteAt(q, n) == Drained(q, n)[0] && Drained(q, n + 1) == Drained(q, n)[1..]
  {
  }

  /* Whole runs: pieces of the stream arrive between the calls of the reader. */

  // Where the DMA pointer stands after n more bytes.
  function After(dma: nat, n: nat): nat {
    (dma + n) % SIZE
  }

  // What is read when each call finds one more piece of the stream.
  function RunParse(s: State, q: seq<uint8>, dma: nat, pieces: seq<seq<uint8>>): Parsed
    decreases |pieces|
  {
    if pieces == [] then Parsed(s, q, []) else
      var at := After(dma, |pieces[0]|);
      var p := RingParse(s, q + pieces[0], at);
      Prepend(p.events, RunParse(p.state, p.rest, at, pieces[1..]))
  }

  // No call comes while one byte of a packet is missing and the others go around the end.
  predicate Undisturbed(s: State, q: seq<uint8>, dma: nat, pieces: seq<seq<uint8>>)
    decreases |pieces|
  {
    pieces == [] ||
      var at := After(dma, |pieces[0]|);
      var p := Parse(s, q + pieces[0]);
      !Misread(p, at) && Undisturbed(p.state, p.rest, at, pieces[1..])
  }

  function Joined(pieces: seq<seq<uint8>>): seq<uint8> {
    if pieces == [] then [] else pieces[0] + Joined(pieces[1..])
  }

  // Such a call does no harm only if the byte it takes to be there is a last blue, and comes
  // to be the 255 that it was taken for.
  predicate ReadsThrough(s: State, q: seq<uint8>, dma: nat, pieces: seq<seq<uint8>>)
    decreases |pieces|
  {
    pieces == [] ||
      var at := After(dma, |pieces[0]|);
      var p := Parse(s, q + pieces[0]);
      if !Misread(p, at) then ReadsThrough(p.state, p.rest, at, pieces[1..])
      else
        && p.state == LedData && Joined(pieces[1..]) != [] && Joined(pieces[1..])[0] == 0xFF
        && ReadsThrough(Header1, [], at, pieces[1..])
  }

  // However the stream is cut, it is read as if it came at once, if and only if that holds
  // of every call.
  lemma {:induction false} ReadsRightThroughIff(s: State, q: seq<uint8>, dma: nat, pieces: seq<seq<uint8>>)
    requires |q| < PacketSize(s)
    ensures RunParse(s, q, dma, pieces) == Parse(s, q + Joined(pieces)) <==> ReadsThrough(s, q, dma, pieces)
    decreases |pieces|
  {
    hide Parse, RingParse, Take, Prepend;
    if pieces == [] {
      ParseShort(s, q);
      assert q + Joined(pieces) == q;
    } else {
      var at, tail := After(dma, |pieces[0]|), pieces[1..];
      var p := Parse(s, q + pieces[0]);
      FirstCall(s, q, dma, pieces);
      RestIsShort(s, q + pieces[0]);
      hide RunParse, ReadsThrough, After;
      if Misread(p, at) {
        ReadsRightThroughIff(Header1, [], at, tail);
        assert [] + Joined(tail) == Joined(tail);
        hide Joined;
        MisreadThrough(p, Joined(tail), RunParse(Header1, [], at, tail));
      } else {
        ReadsRightThroughIff(p.state, p.rest, at, tail);
        SameAfter(p.events, RunParse(p.state, p.rest, at, tail), Parse(p.state, p.rest + Joined(tail)));
      }
    }
  }

  // What the first call reads, and what is left to the others.
  lemma FirstCall(s: State, q: seq<uint8>, dma: nat, pieces: seq<seq<uint8>>)
    requires pieces != []
    ensures var at, tail := After(dma, |pieces[0]|), pieces[1..];
            var p := Parse(s, q + pieces[0]);
            && Parse(s, q + Joined(pieces)) == Prepend(p.events, Parse(p.state, p.rest + Joined(tail)))
            && RunParse(s, q, dma, pieces)
            == (if Misread(p, at)
                then Prepend(p.events + Take(p.state, p.rest).1, RunParse(Header1, [], at, tail))
                else Prepend(p.events, RunParse(p.state, p.rest, at, tail)))
            && ReadsThrough(s, q, dma, pieces)
            == (if Misread(p, at)
                then p.state == LedData && Joined(tail) != [] && Joined(tail)[0] == 0xFF
                     && ReadsThrough(Header1, [], at, tail)
                else ReadsThrough(p.state, p.rest, at, tail))
  {
    hide Parse, RingParse, Take, Misread, Prepend, After;
    RingParseMeaning(s, q + pieces[0], After(dma, |pieces[0]|));
    ParseChunks(s, q + pieces[0], Joined(pieces[1..]));
    assert q + Joined(pieces) == (q + pieces[0]) + Joined(pieces[1..]);
  }

  lemma MisreadThrough(p: Parsed, more: seq<uint8>, later: Parsed)
    requires |p.rest| + 1 == PacketSize(p.state) && p.rest != []
    ensures Prepend(p.events + Take(p.state, p.rest).1, later) == Prepend(p.events, Parse(p.state, p.rest + more))
       <==> p.state == LedData && more != [] && more[0] == 0xFF && later == Parse(Header1, more)
  {
    hide Parse, Take, Prepend;
    AfterMisread(p.state, p.rest, more, later);
    SameAfter(p.events, Prepend(Take(p.state, p.rest).1, later), Parse(p.state, p.rest + more));
    PrependTwice(p.events, Take(p.state, p.rest).1, later);
  }

  lemma SameAfter(events: seq<Event>, a: Parsed, b: Parsed)
    ensures Prepend(events, a) == Prepend(events, b) <==> a == b
  {
    assert (events + a.events)[|events|..] == a.events;
    assert (events + b.events)[|events|..] == b.events;
  }

  lemma PrependTwice(a: seq<Event>, b: seq<Event>, p: Parsed)
    ensures Prepend(a, Prepend(b, p)) == Prepend(a + b, p)
  {
  }

  // What follows a misread call is read right if and only if the byte was rightly guessed.
  lemma AfterMisread(s: State, short: seq<uint8>, more: seq<uint8>, later: Parsed)
    requires |short| + 1 == PacketSize(s) && short != []
    ensures Prepend(Take(s, short).1, later) == Parse(s, short + more)
       <==> s == LedData && more != [] && more[0] == 0xFF && later == Parse(Header1, more)
  {
    hide Take, Parse, PacketSize;
    if more == [] {
      NothingAfterMisread(s, short, later);
      assert short + more == short;
    } else {
      var packet := short + [more[0]];
      assert short + more == packet + more[1..];
      ParsePacket(s, packet, more[1..]);
      ByteAfterMisread(s, short, more, later);
    }
  }

  lemma NothingAfterMisread(s: State, short: seq<uint8>, later: Parsed)
    requires |short| + 1 == PacketSize(s) && short != []
    ensures Prepend(Take(s, short).1, later) != Parse(s, short)
  {
    MisreadTakes(s, short);
    hide Take;
    ParseShort(s, short);
  }

  lemma ByteAfterMisread(s: State, short: seq<uint8>, more: seq<uint8>, later: Parsed)
    requires |short| + 1 == PacketSize(s) && short != [] && more != []
    ensures var t := Take(s, short + [more[0]]);
            Prepend(Take(s, short).1, later) == Prepend(t.1, Parse(t.0, more[1..])) <==>
            s == LedData && more[0] == 0xFF && later == Parse(Header1, more)
  {
    hide Take, Parse, Prepend;
    var t := Take(s, short + [more[0]]);
    MisreadTakes(s, short);
    PacketTakes(s, short, more[0]);
    if s == LedData && more[0] == 0xFF {
      NoHeader(more);
      SameAfter(t.1, later, Parse(Header1, more));
    } else {
      FirstDiffers(Take(s, short).1, t.1, later, Parse(t.0, more[1..]));
    }
  }

  lemma FirstDiffers(a: seq<Event>, b: seq<Event>, p: Parsed, q: Parsed)
    requires |a| == 1 == |b| && a != b
    ensures Prepend(a, p) != Prepend(b, q)
  {
    assert (a + p.events)[0] == a[0] && (b + q.events)[0] == b[0];
  }

  lemma NoHeader(q: seq<uint8>)
    requires q != [] && q[0] != HEADER[0]
    ensures Parse(Header1, q) == Parse(Header1, q[1..])
  {
  }

  lemma MisreadTakes(s: State, short: seq<uint8>)
    requires |short| + 1 == PacketSize(s) && short != []
    ensures s == MotorData || s == LedData
    ensures |Take(s, short).1| == 1
  {
  }

  // The packet with its last byte, against the packet taken without it.
  lemma PacketTakes(s: State, short: seq<uint8>, b: uint8)
    requires |short| + 1 == PacketSize(s) && short != []
    ensures var t := Take(s, short + [b]);
            && |t.1| == 1
            && (t.1 == Take(s, short).1 <==> s == LedData && b == 0xFF)
            && (s == LedData ==> t.0 == Header1)
  {
    MisreadTakes(s, short);
    if s == LedData {
      LastBlue(short, b);
      hide ColoursFrom;
    } else {
      hide ColoursFrom, ToInt8;
      assert ByteAt(short, 4) == -1 && ByteAt(short + [b], 4) == b;
    }
  }

  lemma LastBlue(short: seq<uint8>, b: uint8)
    requires |short| == 47
    ensures ColoursFrom(short + [b], NUM_LEDS) == ColoursFrom(short, NUM_LEDS) <==> b == 0xFF
  {
    var long := short + [b];
    forall k | 0 <= k < 15 ensures ColourAt(long, k) == ColourAt(short, k) {
    }
    assert ColourAt(long, 15) == Colour(short[45], short[46], b);
    assert ColourAt(short, 15) == Colour(short[45], short[46], 0xFF);
    assert ColoursFrom(long, NUM_LEDS)[15] == ColourAt(long, 15);
    assert ColoursFrom(short, NUM_LEDS)[15] == ColourAt(short, 15);
  }

  lemma {:induction false} CutsDoNotMatter(s: State, q: seq<uint8>, dma: nat, pieces: seq<seq<uint8>>)
    requires |q| < PacketSize(s)
    requires Undisturbed(s, q, dma, pieces)
    ensures ReadsThrough(s, q, dma, pieces)
    ensures RunParse(s, q, dma, pieces) == Parse(s, q + Joined(pieces))
    decreases |pieces|
  {
    hide Parse, RingParse;
    if pieces != [] {
      var p := Parse(s, q + pieces[0]);
      RestIsShort(s, q + pieces[0]);
      CutsDoNotMatter(p.state, p.rest, After(dma, |pieces[0]|), pieces[1..]);
    }
    ReadsRightThroughIff(s, q, dma, pieces);
  }

  lemma ParseShort(s: State, q: seq<uint8>)
    requires |q| < PacketSize(s)
    ensures Parse(s, q) == Parsed(s, q, [])
  {
  }

  // Every sequence of actions, cut in any way, is read back whole, if and only if the cuts
  // meet that condition.
  lemma ActionsArriveIff(drops: seq<Drop>, dma: nat, pieces: seq<seq<uint8>>)
    requires forall d | d in drops :: WellFormed(d)
    requires Joined(pieces) == Frames(drops)
    ensures RunParse(Header1, [], dma, pieces) == Parsed(Header1, [], Meanings(drops))
       <==> ReadsThrough(Header1, [], dma, pieces)
  {
    hide Parse, RingParse, RunParse, ReadsThrough;
    ReadsRightThroughIff(Header1, [], dma, pieces);
    ParseFrames(drops);
    assert [] + Joined(pieces) == Frames(drops);
  }

  // Cutting between frames is always safe.
  lemma {:induction false} WholeFramesAreUndisturbed(drops: seq<Drop>, dma: nat)
    requires forall d | d in drops :: WellFormed(d)
    ensures var pieces := seq(|drops|, k requires 0 <= k < |drops| => Frame(drops[k]));
            Undisturbed(Header1, [], dma, pieces) && Joined(pieces) == Frames(drops)
  {
    hide Frame, Parse, Take, Meaning;
    if drops != [] {
      var pieces := seq(|drops|, k requires 0 <= k < |drops| => Frame(drops[k]));
      var rest := drops[1..];
      assert pieces[1..] == seq(|rest|, k requires 0 <= k < |rest| => Frame(rest[k]));
      WholeFramesAreUndisturbed(rest, After(dma, |pieces[0]|));
      FrameAlone(drops[0]);
      assert [] + pieces[0] == pieces[0];
    }
  }

  lemma FrameAlone(d: Drop)
    requires WellFormed(d)
    ensures Parse(Header1, Frame(d)).state == Header1 && Parse(Header1, Frame(d)).rest == []
  {
    ParseFrame(d, []);
    hide Frame, Meaning;
    assert Frame(d) + [] == Frame(d);
    ParseShort(Header1, []);
  }

  // The robot's side of a run: each piece is deposited, then the reader is called.
  method Run(reader: CommandReader, ring: Ring, disabled: bool, pieces: seq<seq<uint8>>)
    requires reader.Valid() && ring.Valid()
    requires |ring.Unread()| < PacketSize(reader.state)
    requires forall k | 0 <= k < |pieces| :: |pieces[k]| + PacketSize(LedData) <= SIZE
    modifies reader, reader.leds, ring, ring.buf
    ensures reader.Valid() && ring.Valid()
    ensures var p := RunParse(old(reader.state), old(ring.Unread()), old(ring.dma), pieces);
            && reader.state == p.state && ring.Unread() == p.rest
            && reader.decoded == old(reader.decoded) + p.events
  {
    hide RingParse, After, Ring.Unread;
    ghost var s, q, dma, past := reader.state, ring.Unread(), ring.dma, reader.decoded;
    ghost var events: seq<Event> := [];
    var i := 0;
    while i < |pieces|
      invariant 0 <= i <= |pieces|
      invariant reader.Valid() && ring.Valid() && |ring.Unread()| < PacketSize(reader.state)
      invariant reader.decoded == past + events
      invariant RunParse(s, q, dma, pieces)
             == Prepend(events, RunParse(reader.state, ring.Unread(), ring.dma, pieces[i..]))
    {
      events := events
        + RingParse(reader.state, ring.Unread() + pieces[i], After(ring.dma, |pieces[i]|)).events;
      Call(reader, ring, disabled, pieces[i]);
      assert pieces[i..][1..] == pieces[i + 1..];
      i := i + 1;
    }
    assert events + [] == events;
  }

  method Call(reader: CommandReader, ring: Ring, disabled: bool, piece: seq<uint8>)
    requires reader.Valid() && ring.Valid()
    requires |ring.Unread()| < PacketSize(reader.state) && |piece| + PacketSize(LedData) <= SIZE
    modifies reader, reader.leds, ring, ring.buf
    ensures reader.Valid() && ring.Valid() && ring.dma == After(old(ring.dma), |piece|)
    ensures |ring.Unread()| < PacketSize(reader.state)
    ensures var p := RingParse(old(reader.state), old(ring.Unread()) + piece, ring.dma);
            && reader.state == p.state && ring.Unread() == p.rest
            && reader.decoded == old(reader.decoded) + p.events
  {
    hide RingParse, Shows, Act, LightsFor, After, LastAction, LastMotor, Ring.Region;
    DepositAll(ring, piece);
    RingRestIsShort(reader.state, ring.Unread(), ring.dma);
    var action, lights := reader.GetCommands(ring, disabled);
  }

  lemma RingRestIsShort(s: State, q: seq<uint8>, dma: nat)
    ensures var p := RingParse(s, q, dma); |p.rest| < PacketSize(p.state)
  {
    hide Take, Parse, RingParse;
    RingParseMeaning(s, q, dma);
    RestIsShort(s, q);
  }

  method DepositAll(ring: Ring, piece: seq<uint8>)
    requires ring.Valid() && |ring.Unread()| + |piece| < SIZE
    modifies ring`dma, ring`deposited, ring.buf
    ensures ring.Valid() && ring.Unread() == old(ring.Unread()) + piece
    ensures ring.dma == After(old(ring.dma), |piece|)
  {
    hide Ring.Region, NoLineEndIn;
    var i := 0;
    while i < |piece|
      invariant 0 <= i <= |piece| && ring.Valid()
      invariant ring.Unread() == old(ring.Unread()) + piece[..i]
      invariant ring.dma == After(old(ring.dma), i)
    {
      ring.Deposit(piece[i]);
      assert piece[..i + 1] == piece[..i] + [piece[i]];
      i := i + 1;
    }
    assert piece[..i] == piece;
  }
}
