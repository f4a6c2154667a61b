/**
  The wheel controller: current and voltage limits, the soft PID, the command watchdog, and
  the SPI slave that feeds them.
*/
module WheelControl {
  import opened Words
  import HBridge

  const SPEED_LIMIT := 25
  const I_LIMIT := 30
  const I_LIMIT_MIN := 2
  const I_LIMIT_RATE := 6
  const KPS := 8
  const KIS := 8
  const KDS := 16
  const I_ERROR_MAX := 1000
  const MAX_FIXED_POINT_OUTPUT := 8128
  const MAX_MOVE_VOLTAGE := 185
  const MAX_VOLTAGE_SETPOINT := 100
  const COMMAND_TIMEOUT := 60

  /* Limiting the drive. */

  datatype Limiter = Limiter(inLimit: uint8, correction: int8, count: uint8, voltageLimit: int8) {
    predicate Valid() {
      0 <= correction && count < I_LIMIT_RATE && 0 <= voltageLimit
    }
  }

  // The largest drive the bus voltage, in tenths of a volt, allows.
  function MaxVolt(vNow: uint8): int8 {
    if vNow <= 120 then 127 else if vNow > MAX_MOVE_VOLTAGE then 0 else 127 - (vNow - 120) * 3 / 4
  }

  // The correction grows under overcurrent, up to one below the setpoint, and decays otherwise.
  function Corrected(correction: int8, magnitude: int8, overCurrent: bool): int8
    requires 0 <= correction
  {
    if !overCurrent then (if correction > 0 then correction - 1 else 0)
    else
      var raised := ToInt8(correction + 1);
      var bounded := if raised >= magnitude then ToInt8(magnitude - 1) else raised;
      if bounded < 0 then 0 else bounded
  }

  function StallCount(inLimit: uint8, clicks: int16, setpoint: int8): uint8 {
    if setpoint == 0 then inLimit
    else if clicks == 0 then (if inLimit < 255 then inLimit + 1 else inLimit)
    else if inLimit > 0 then inLimit - 1 else inLimit
  }

  function Relimited(l: Limiter, inLimit: uint8, current: uint8, vNow: uint8): Limiter
    requires l.Valid()
  {
    var stalled := inLimit > 0 && current > I_LIMIT_MIN;
    var due := stalled && l.count + 1 >= I_LIMIT_RATE;
    var v := if due then (if l.voltageLimit > 1 then l.voltageLimit - 1 else l.voltageLimit)
             else if stalled then l.voltageLimit
             else if l.voltageLimit < 127 then l.voltageLimit + 1 else l.voltageLimit;
    Limiter(inLimit, l.correction, if due then 0 else if stalled then l.count + 1 else l.count,
            if v > MaxVolt(vNow) then MaxVolt(vNow) else v)
  }

  // The limits after a tick with a setpoint.
  function Ticked(l: Limiter, setpoint: int8, sensors: Sensors, vNow: uint8): Limiter
    requires l.Valid()
  {
    Relimited(l, StallCount(l.inLimit, sensors.clicks, setpoint), sensors.current, vNow)
      .(correction := Corrected(l.correction, ToInt8(Abs(setpoint)), sensors.current > I_LIMIT))
  }

  /* The PID. */

  function Bound(x: int, limit: int): int {
    if x > limit then limit else if x < -limit then -limit else x
  }

  // The controller in the widths of the processor: errors and the sum wrap at 16 bits.
  function PidError(setpoint: int, clicks: int): int16 {
    ToInt16(4 * Bound(setpoint, SPEED_LIMIT) - clicks)
  }

  function PidCommand(error: int16, lastError: int16, iError: int): int {
    Bound(WordSum(error, iError, ToInt16(error - lastError)), MAX_FIXED_POINT_OUTPUT) / 64
  }

  function WordSum(e: int16, i: int, d: int16): int16 {
    ToInt16(ToInt16(e * KPS) + i * KIS + ToInt16(d * KDS))
  }

  // The controller as intended, on integers that cannot overflow.
  function PidSum(setpoint: int, clicks: int, lastError: int, iError: int): int {
    var error := 4 * setpoint - clicks;
    error * KPS + iError * KIS + (error - lastError) * KDS
  }

  function Integrated(iError: int, error: int): int {
    Bound(TruncDiv(iError * 63, 64) + error, I_ERROR_MAX)
  }

  predicate PidIgnores(setpoint: int8) {
    setpoint > 100 || setpoint < -100 || setpoint == 0
  }

  /* Variables and code of the controller. */

  datatype Sensors = Sensors(current: uint8, temperature: uint8, clicks: int16)

  const SPI_PACKET_HEADER: uint8 := 0x7A
  const SPI_PWM_HEADER: uint8 := 0x7B

  class Controller {
    const bridge: HBridge.BridgeDriver
    var inLimit: uint8
    var correction: int8
    var limitCount: uint8
    var voltageLimit: int8
    var error: int16
    var iError: int
    var setpoint: int8
    var vNow: uint8
    var eventCount: uint8
    var pwmMode: bool
    var voltageOut: uint8
    var rstate: uint8
    var spdr: uint8
    // How many control ticks ago the last setpoint byte arrived, if one ever did.
    ghost var silence: nat
    ghost var everHeard: bool

    ghost function Limits(): Limiter
      reads this
    {
      Limiter(inLimit, correction, limitCount, voltageLimit)
    }

    // A usable setpoint is one the watchdog counts from.
    ghost predicate Watched()
      reads this
    {
      && (eventCount <= COMMAND_TIMEOUT + 1 || (!everHeard && eventCount == 100))
      && (setpoint != 0 && eventCount <= COMMAND_TIMEOUT + 1 ==> everHeard && silence == eventCount)
    }

    ghost predicate Valid()
      reads this, bridge
    {
      && bridge.Valid() && Limits().Valid() && Abs(iError) <= I_ERROR_MAX
      && Watched()
    }

    constructor (bridge: HBridge.BridgeDriver)
      requires bridge.Valid()
      ensures Valid() && this.bridge == bridge && rstate == 0 && error == 0 && iError == 0
    {
      this.bridge := bridge;
      inLimit, correction, limitCount, voltageLimit := 0, 0, 0, 0;
      error, iError := 0, 0;
      setpoint, vNow, eventCount := 101, 255, 100;
      pwmMode, voltageOut, rstate, spdr := false, 0, 0, 0;
      silence, everHeard := 0, false;
    }

    // Returns the setpoint with the overcurrent correction taken off.
    method CurrentLimit(sp: int8, sensors: Sensors) returns (r: int8)
      requires Limits().Valid()
      modifies this`inLimit, this`correction, this`limitCount, this`voltageLimit
      ensures Limits().Valid()
      ensures correction == Corrected(old(correction), ToInt8(Abs(sp)), sensors.current > I_LIMIT)
      ensures r == ToInt8((ToInt8(Abs(sp)) - correction) * (if sp > 0 then 1 else -1))
      ensures sp == setpoint ==> Limits() == Ticked(old(Limits()), setpoint, sensors, vNow)
      ensures voltageLimit <= MaxVolt(vNow)
    {
      var sign := if sp > 0 then 1 else -1;
      var magnitude := ToInt8(Abs(sp));
      if sensors.current > I_LIMIT {
        correction := ToInt8(correction + 1);
        if correction >= magnitude {
          correction := ToInt8(magnitude - 1);
        }
        if correction < 0 {
          correction := 0;
        }
      } else {
        var eased: int := correction;
        if eased > 0 {
          eased := eased - 1;
        }
        if eased < 0 {
          eased := 0;
        }
        correction := eased;
      }
      UpdateVoltageLimit(sensors);
      return ToInt8((magnitude - correction) * sign);
    }

    method UpdateVoltageLimit(sensors: Sensors)
      requires Limits().Valid()
      modifies this`inLimit, this`limitCount, this`voltageLimit
      ensures Limits() == Relimited(old(Limits()), StallCount(old(inLimit), sensors.clicks, setpoint), sensors.current, vNow)
    {
      if inLimit < 255 && sensors.clicks == 0 && setpoint != 0 {
        inLimit := inLimit + 1;
      }
      if inLimit > 0 && sensors.clicks != 0 && setpoint != 0 {
        inLimit := inLimit - 1;
      }
      if inLimit > 0 && sensors.current > I_LIMIT_MIN {
        limitCount := limitCount + 1;
        if limitCount >= I_LIMIT_RATE {
          limitCount := 0;
          if voltageLimit > 1 {
            voltageLimit := voltageLimit - 1;
          }
        }
      } else {
        if voltageLimit < 127 {
          voltageLimit := voltageLimit + 1;
        }
      }
      var maxVolt: int8;
      if vNow <= 120 {
        maxVolt := 127;
      } else if vNow > MAX_MOVE_VOLTAGE {
        maxVolt := 0;
      } else {
        maxVolt := 127 - (vNow - 120) * 3 / 4;
      }
      if voltageLimit > maxVolt {
        voltageLimit := maxVolt;
      }
    }

    function SpeedLimit(sp: int8): (r: int8)
      ensures Abs(r) <= MAX_VOLTAGE_SETPOINT && (Abs(sp) <= MAX_VOLTAGE_SETPOINT ==> r == sp)
      ensures (sp > 0 ==> r > 0) && (sp < 0 ==> r < 0)
    {
      if sp > MAX_VOLTAGE_SETPOINT then MAX_VOLTAGE_SETPOINT
      else if sp < -MAX_VOLTAGE_SETPOINT then -MAX_VOLTAGE_SETPOINT else sp
    }

    // The PID in 16-bit arithmetic.
    method SoftPidControl(sp: int8, clicks: int16) returns (r: int8)
      requires Abs(iError) <= I_ERROR_MAX
      modifies this`error, this`iError
      ensures Abs(iError) <= I_ERROR_MAX
      ensures -127 <= r <= 127
      ensures PidIgnores(sp) ==> r == 0 && error == old(error) && iError == old(iError)
      ensures !PidIgnores(sp) ==>
                && error == PidError(sp, clicks) && iError == Integrated(old(iError), error)
                && r == PidCommand(error, old(error), iError)
    {
      hide ToInt16, TruncDiv;
      if sp > 100 || sp < -100 || sp == 0 {
        return 0;
      }
      var s := sp;
      if s > SPEED_LIMIT {
        s := SPEED_LIMIT;
      }
      if s < -SPEED_LIMIT {
        s := -SPEED_LIMIT;
      }
      var lastError := error;
      error := ToInt16(4 * s - clicks);
      var dError := ToInt16(error - lastError);
      iError := TruncDiv(iError * 63, 64) + error;
      if iError > I_ERROR_MAX {
        iError := I_ERROR_MAX;
      }
      if iError < -I_ERROR_MAX {
        iError := -I_ERROR_MAX;
      }
      r := PidOutput(error, iError, dError);
    }

    // The weighted sum, truncated to 16 bits as it is stored, bounded and scaled.
    method PidOutput(e: int16, i: int, d: int16) returns (r: int8)
      ensures r == Bound(WordSum(e, i, d), MAX_FIXED_POINT_OUTPUT) / 64
      ensures -127 <= r <= 127
    {
      hide ToInt16;
      var hires: int := ToInt16(ToInt16(e * KPS) + i * KIS + ToInt16(d * KDS));
      if hires > MAX_FIXED_POINT_OUTPUT {
        hires := MAX_FIXED_POINT_OUTPUT;
      }
      if hires < -MAX_FIXED_POINT_OUTPUT {
        hires := -MAX_FIXED_POINT_OUTPUT;
      }
      return hires / 64;
    }

    method Watchdog()
      requires Watched()
      modifies this`setpoint, this`eventCount, this`silence
      ensures Watched()
      ensures setpoint == (if old(eventCount) > COMMAND_TIMEOUT then 0 else old(setpoint))
      ensures eventCount == (if old(eventCount) > COMMAND_TIMEOUT then 0 else old(eventCount) + 1)
      ensures silence == old(silence) + 1
      ensures setpoint != 0 ==> everHeard && silence <= COMMAND_TIMEOUT + 1
    {
      if eventCount > COMMAND_TIMEOUT {
        setpoint := 0;
        eventCount := 0;
      } else {
        eventCount := eventCount + 1;
      }
      silence := silence + 1;
    }

    // The limited setpoint goes through the PID, or in PWM mode through the hard limit.
    method ComputeCommand(sensors: Sensors) returns (command: int8)
      requires Limits().Valid() && Abs(iError) <= I_ERROR_MAX
      modifies this`inLimit, this`correction, this`limitCount, this`voltageLimit, this`error, this`iError
      ensures Limits().Valid() && Abs(iError) <= I_ERROR_MAX
      ensures voltageLimit <= MaxVolt(vNow) && -127 <= command
      ensures var limited := LimitedSetpoint(setpoint, old(correction), sensors.current > I_LIMIT);
              if pwmMode then command == SpeedLimit(limited)
              else if PidIgnores(limited) then command == 0 && error == old(error) && iError == old(iError)
              else
                && error == PidError(limited, sensors.clicks) && iError == Integrated(old(iError), error)
                && command == PidCommand(error, old(error), iError)
      ensures pwmMode ==> error == old(error) && iError == old(iError)
      ensures Limits() == Ticked(old(Limits()), setpoint, sensors, vNow)
    {
      hide ToInt8, StallCount, PidError, PidCommand, Integrated, Corrected, Relimited;
      command := CurrentLimit(setpoint, sensors);
      assert command == LimitedSetpoint(setpoint, old(correction), sensors.current > I_LIMIT);
      if !pwmMode {
        command := SoftPidControl(command, sensors.clicks);
      } else {
        command := SpeedLimit(command);
      }
    }

    method Output(command: int8)
      requires bridge.Valid() && Limits().Valid() && voltageLimit <= MaxVolt(vNow) && -127 <= command
      modifies this`voltageOut, bridge
      ensures bridge.Valid() && bridge.lastVoltage == HBridge.Limited(command, voltageLimit)
      ensures Abs(bridge.lastVoltage) <= voltageLimit
      ensures Abs(bridge.lastVoltage) * vNow <= 15805 && (vNow > MAX_MOVE_VOLTAGE ==> bridge.lastVoltage == 0)
      ensures command == 0 ==> bridge.Regs() == HBridge.ALL_OFF
      ensures voltageOut == command % 0x100
    {
      hide MaxVolt;
      bridge.SetVoltage(command, voltageLimit);
      DriveCapped(vNow, bridge.lastVoltage);
      voltageOut := command % 0x100;
    }

    // One turn of the control loop; used is the setpoint the turn acts on.
    method ControlTick(sensors: Sensors) returns (ghost used: int8, command: int8)
      requires Valid()
      modifies this, bridge
      ensures Valid()
      ensures used == setpoint == (if old(eventCount) > COMMAND_TIMEOUT then 0 else old(setpoint))
      // The watchdog: a setpoint is acted on only within 61 ticks of its last byte.
      ensures used != 0 ==> everHeard && silence == old(silence) + 1 <= COMMAND_TIMEOUT + 1
      // Silence stops the drive, as soon as no overcurrent correction is left.
      ensures used == 0 && old(correction) <= 1 ==> command == 0
      ensures var limited := LimitedSetpoint(used, old(correction), sensors.current > I_LIMIT);
              if pwmMode then command == SpeedLimit(limited)
              else if PidIgnores(limited) then command == 0 && error == old(error) && iError == old(iError)
              else
                && error == PidError(limited, sensors.clicks) && iError == Integrated(old(iError), error)
                && command == PidCommand(error, old(error), iError)
      ensures pwmMode ==> error == old(error) && iError == old(iError)
      ensures Limits() == Ticked(old(Limits()), used, sensors, vNow)
      // Whatever the command, the bridge gets no more than the bus voltage allows.
      ensures bridge.lastVoltage == HBridge.Limited(command, voltageLimit)
      ensures Abs(bridge.lastVoltage) <= voltageLimit <= MaxVolt(vNow)
      ensures Abs(bridge.lastVoltage) * vNow <= 15805 && (vNow > MAX_MOVE_VOLTAGE ==> bridge.lastVoltage == 0)
      ensures command == 0 ==> bridge.Regs() == HBridge.ALL_OFF
      ensures eventCount == (if old(eventCount) > COMMAND_TIMEOUT then 0 else old(eventCount) + 1)
      ensures vNow == old(vNow) && rstate == old(rstate) && pwmMode == old(pwmMode)
      ensures voltageOut == command % 0x100
    {
      hide ToInt8, Corrected, LimitedSetpoint, PidError, PidCommand, Integrated, MaxVolt, HBridge.Limited, Ticked;
      Watchdog();
      used := setpoint;
      command := ComputeCommand(sensors);
      if used == 0 && old(correction) <= 1 {
        NothingLimited(old(correction), sensors.current > I_LIMIT);
      }
      Output(command);
    }

    // The SPI interrupt: byte is what the master sent, the result what it gets in exchange,
    // which the previous interrupt loaded.
    method SpiByte(byte: uint8, sensors: Sensors) returns (reply: uint8)
      requires Valid()
      modifies this`pwmMode, this`rstate, this`setpoint, this`vNow, this`spdr
      modifies this`eventCount, this`silence, this`everHeard
      ensures Valid()
      ensures reply == old(spdr)
      ensures rstate == NextState(old(rstate), byte)
      ensures spdr == Loaded(old(rstate), sensors, voltageOut)
      ensures setpoint == (if old(rstate) == 1 then ToInt8(byte) else old(setpoint))
      ensures vNow == (if old(rstate) == 2 then byte else old(vNow))
      ensures pwmMode == (if old(rstate) == 0 && byte in {SPI_PACKET_HEADER, SPI_PWM_HEADER}
                          then byte == SPI_PWM_HEADER else old(pwmMode))
      ensures old(rstate) == 1 ==> silence == 0 && everHeard && eventCount == 0
      ensures old(rstate) != 1 ==> silence == old(silence) && everHeard == old(everHeard) && eventCount == old(eventCount)
      ensures voltageOut == old(voltageOut) && Limits() == old(Limits())
    {
      reply := spdr;
      if rstate == 0 {
        spdr := (sensors.clicks / 4) % 0x100;
        if byte == SPI_PACKET_HEADER {
          pwmMode := false;
          rstate := 1;
        } else if byte == SPI_PWM_HEADER {
          pwmMode := true;
          rstate := 1;
        } else {
          rstate := 0;
        }
      } else if rstate == 1 {
        setpoint := ToInt8(byte);
        eventCount := 0;
        silence, everHeard := 0, true;
        spdr := sensors.current;
        rstate := 2;
      } else if rstate == 2 {
        vNow := byte;
        spdr := sensors.temperature;
        rstate := 3;
      } else if rstate == 3 {
        spdr := voltageOut;
        rstate := 4;
      } else if rstate == 4 {
        spdr := 0;
        rstate := 0;
      } else {
        spdr := 0;
        rstate := 0;
      }
    }
  }

  function NextState(rstate: uint8, byte: uint8): uint8 {
    if rstate == 0 then (if byte in {SPI_PACKET_HEADER, SPI_PWM_HEADER} then 1 else 0)
    else if rstate < 4 then rstate + 1 else 0
  }

  function Loaded(rstate: uint8, sensors: Sensors, voltageOut: uint8): uint8 {
    match rstate
    case 0 => (sensors.clicks / 4) % 0x100
    case 1 => sensors.current
    case 2 => sensors.temperature
    case 3 => voltageOut
    case _ => 0
  }

  /* A wheel that gets no more setpoints. */

  datatype Activity = Turn(sensors: Sensors) | Byte(byte: uint8, sensors: Sensors)

  // No byte arrives in the slot of the setpoint.
  predicate NoSetpoint(rstate: uint8, acts: seq<Activity>)
    decreases |acts|
  {
    acts == [] ||
    match acts[0]
    case Turn(_) => NoSetpoint(rstate, acts[1..])
    case Byte(b, _) => rstate != 1 && NoSetpoint(NextState(rstate, b), acts[1..])
  }

  function Turns(acts: seq<Activity>): nat {
    if acts == [] then 0 else (if acts[0].Turn? then 1 else 0) + Turns(acts[1..])
  }

  // The watchdog's delay, and a tick for every unit of overcurrent correction but the last.
  const STOPPED_AFTER := COMMAND_TIMEOUT + 127

  function CorrectionLeft(n: nat): nat {
    if n <= COMMAND_TIMEOUT + 1 then 127
    else if n <= STOPPED_AFTER + 1 then STOPPED_AFTER + 1 - n else 0
  }

  // Whatever its sensors read and whatever else arrives, such a wheel gets no drive from
  // then on, and in the end all outputs of its bridge are off.
  method Unattended(c: Controller, acts: seq<Activity>) returns (commands: seq<int8>)
    requires c.Valid() && NoSetpoint(c.rstate, acts)
    modifies c, c.bridge
    ensures c.Valid() && |commands| == Turns(acts)
    ensures forall k | STOPPED_AFTER <= k < |commands| :: commands[k] == 0
    ensures |commands| > STOPPED_AFTER ==> c.bridge.Regs() == HBridge.ALL_OFF
  {
    hide HBridge.BridgeDriver.Valid, HBridge.BridgeDriver.Regs, Controller.Watched, LimitedSetpoint, PidError, PidCommand, Integrated, MaxVolt, Corrected, ToInt8;
    commands := [];
    var i := 0;
    assert acts[0..] == acts;
    while i < |acts|
      invariant 0 <= i <= |acts| && c.Valid()
      invariant NoSetpoint(c.rstate, acts[i..]) && |commands| + Turns(acts[i..]) == Turns(acts)
      invariant c.setpoint == 0 || (|commands| <= c.eventCount && |commands| <= COMMAND_TIMEOUT + 1)
      invariant c.correction <= CorrectionLeft(|commands|)
      invariant forall k | STOPPED_AFTER <= k < |commands| :: commands[k] == 0
      invariant |commands| > STOPPED_AFTER ==> c.bridge.Regs() == HBridge.ALL_OFF
    {
      assert acts[i..][1..] == acts[i + 1..];
      match acts[i] {
        case Turn(sensors) =>
          CorrectionEases(c.correction, sensors.current > I_LIMIT);
          var used, command := c.ControlTick(sensors);
          commands := commands + [command];
        case Byte(b, sensors) =>
          var reply := c.SpiByte(b, sensors);
      }
      i := i + 1;
    }
  }

  lemma CorrectionEases(correction: int8, overCurrent: bool)
    requires 0 <= correction
    ensures Corrected(correction, ToInt8(Abs(0)), overCurrent) <= if correction > 0 then correction - 1 else 0
  {
  }

  /* What the limits mean. */

  // The drive the bus can put on the motor never exceeds 12.5 volts, in units of a tenth of
  // a volt times 127, and is zero above 18.5 volts.
  lemma DriveCapped(vNow: uint8, drive: int8)
    requires Abs(drive) <= MaxVolt(vNow)
    ensures Abs(drive) * vNow <= 15805 <= 125 * 127
    ensures vNow > MAX_MOVE_VOLTAGE ==> drive == 0
  {
    if vNow <= 120 {
      Product(Abs(drive), 127, vNow);
    } else if vNow <= MAX_MOVE_VOLTAGE {
      Product(Abs(drive), MaxVolt(vNow), vNow);
      CappedProduct(vNow);
    }
  }

  lemma Product(a: nat, b: nat, v: nat)
    requires a <= b
    ensures a * v <= b * v
  {
    assert (b - a) * v >= 0;
    assert (b - a) * v == b * v - a * v;
  }

  // The cap is reached: 109 at 14.5 volts.
  lemma CappedProduct(vNow: uint8)
    requires 120 < vNow <= MAX_MOVE_VOLTAGE
    ensures MaxVolt(vNow) * vNow <= 15805
    ensures vNow == 145 ==> MaxVolt(vNow) * vNow == 15805
  {
    var d, q := vNow - 120, (vNow - 120) * 3 / 4;
    assert MaxVolt(vNow) * vNow == (127 - q) * (120 + d);
    QuadraticCap(d, 3 * d - 4 * q, (127 - q) * (120 + d), q);
  }

  // Four times the product is a parabola in the excess voltage d, shifted by the remainder r.
  lemma QuadraticCap(d: nat, r: int, p: int, q: int)
    requires 0 <= r <= 3 && 4 * q == 3 * d - r && p == (127 - q) * (120 + d)
    ensures p <= 15805
    ensures d == 25 ==> p == 15805
  {
    Expand(d, r, q);
    Parabola(d);
    assert r * d == if r == 0 then 0 else if r == 1 then d else if r == 2 then 2 * d else 3 * d;
  }

  lemma Expand(d: nat, r: int, q: int)
    requires 4 * q == 3 * d - r
    ensures 4 * ((127 - q) * (120 + d)) == 60960 + 148 * d - 3 * (d * d) + 120 * r + r * d
  {
    assert 4 * ((127 - q) * (120 + d)) == (508 - (3 * d - r)) * (120 + d);
  }

  lemma Parabola(d: nat)
    ensures d * d >= 50 * d - 625
    ensures d > 25 ==> d * d >= 51 * d - 650
    ensures d == 25 ==> d * d == 625
  {
    assert (d - 25) * (d - 25) == d * d - 50 * d + 625;
    if d > 25 {
      assert (d - 25) * (d - 26) == d * d - 51 * d + 650;
    }
  }

  // The limited setpoint, as CurrentLimit returns it.
  function LimitedSetpoint(sp: int8, correction: int8, overCurrent: bool): int8
    requires 0 <= correction
  {
    ToInt8((ToInt8(Abs(sp)) - Corrected(correction, ToInt8(Abs(sp)), overCurrent)) * (if sp > 0 then 1 else -1))
  }

  lemma NoCorrectionLeft(correction: int8, overCurrent: bool)
    requires 0 <= correction <= 1
    ensures Corrected(correction, 0, overCurrent) == 0
  {
    hide ToInt8;
    Int8Fits(-1);
    Int8Fits(correction + 1);
  }

  lemma NothingLimited(correction: int8, overCurrent: bool)
    requires 0 <= correction <= 1
    ensures LimitedSetpoint(0, correction, overCurrent) == 0
  {
    hide ToInt8, Corrected;
    Int8Fits(0);
    NoCorrectionLeft(correction, overCurrent);
  }

  lemma CorrectedRange(correction: int8, magnitude: int8, overCurrent: bool)
    requires 0 <= correction && 0 < magnitude
    ensures var c := Corrected(correction, magnitude, overCurrent);
            && (overCurrent ==> 0 <= c < magnitude)
            && (!overCurrent ==> c == if correction > 0 then correction - 1 else 0)
  {
    hide ToInt8;
    Int8Fits(magnitude - 1);
  }

  // The current limit reverses a command exactly when the setpoint has shrunk below what is
  // left of the correction; otherwise it only weakens it.
  lemma ReversesIff(sp: int8, correction: int8, overCurrent: bool)
    requires sp != 0 && 0 <= correction
    ensures var r := LimitedSetpoint(sp, correction, overCurrent);
            && ((r < 0 < sp || sp < 0 < r) <==> !overCurrent && correction - 1 > Abs(sp))
            && (overCurrent ==> r != 0)
            && (!(r < 0 < sp || sp < 0 < r) ==> Abs(r) <= Abs(sp))
  {
    if sp == -128 {
      LeastSetpoint(correction, overCurrent);
    } else {
      hide ToInt8, Corrected;
      var m := Abs(sp);
      Int8Fits(m);
      CorrectedRange(correction, m, overCurrent);
      var c := Corrected(correction, m, overCurrent);
      Int8Fits(m - c);
      Int8Fits(c - m);
      assert LimitedSetpoint(sp, correction, overCurrent) == if sp > 0 then m - c else c - m;
    }
  }

  // The magnitude of -128 wraps to -128, and still the command keeps its sign.
  lemma LeastSetpoint(correction: int8, overCurrent: bool)
    requires 0 <= correction
    ensures -128 <= LimitedSetpoint(-128, correction, overCurrent) < 0
  {
  }

  // A zero setpoint still commands what is left of the correction, and it drains one a tick.
  function Drained(correction: int8, overCurrent: seq<bool>): int8
    requires 0 <= correction
    ensures 0 <= Drained(correction, overCurrent) <= correction
    ensures |overCurrent| >= correction ==> Drained(correction, overCurrent) == 0
    decreases |overCurrent|
  {
    if overCurrent == [] then correction
    else Drained(Corrected(correction, 0, overCurrent[0]), overCurrent[1..])
  }

  lemma ZeroSetpointResidue(correction: int8, overCurrent: bool)
    requires 0 <= correction
    ensures LimitedSetpoint(0, correction, overCurrent) == if !overCurrent && correction > 1 then correction - 1 else 0
  {
  }

  // The difference of two 16-bit encoder counts is right across a wrap of the counter.
  lemma EncoderDifference(count: nat, moved: int16)
    requires count < 0x1_0000
    ensures ToInt16((count + moved) % 0x1_0000 - count) == moved
  {
  }
}
