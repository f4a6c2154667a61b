/**
  The ARM side of the motor control: omni-drive scaling, the 16.16 fixed-point slew and the
  command timeout.
*/
module Slew {
  import opened Words

  const NUM_MOTORS := 3
  const MAX_SPEED := 100
  const TIMEOUT := 50
  const ONE := 0x1_0000
  const PACKET_HEADER: uint8 := 0x7A
  const PWM_HEADER: uint8 := 0x7B

  /* One wheel: the current speed, the target, and the fixed-point ramp from start to it. */
  datatype Wheel = Wheel(speed: int, final: int, start: int, float: int, interval: int) {
    function Begin(target: int, steps: int): Wheel
      requires steps > 0
    {
      Wheel(speed, target, speed, speed * ONE, TruncDiv((target - speed) * ONE, steps))
    }

    function Ramp(): Wheel {
      this.(float := float + interval, speed := ToInt8((float + interval) / ONE))
    }

    function Snap(): Wheel {
      this.(speed := final)
    }
  }

  type Target = t: seq<int> | |t| == NUM_MOTORS witness [0, 0, 0]
  type Wheels = w: seq<Wheel> | |w| == NUM_MOTORS
    witness [Wheel(0, 0, 0, 0, 0), Wheel(0, 0, 0, 0, 0), Wheel(0, 0, 0, 0, 0)]

  const STOP: Target := [0, 0, 0]

  datatype Motors = Motors(wheels: Wheels, steps: nat, count: nat, voltageMode: bool, timeout: nat)

  function Clamp(x: int): int {
    if x < -MAX_SPEED then -MAX_SPEED else if x > MAX_SPEED then MAX_SPEED else x
  }

  function Max3(a: int, b: int, c: int): (m: int)
    ensures m >= a && m >= b && m >= c && (m == a || m == b || m == c)
  {
    var m := if b > a then b else a;
    if c > m then c else m
  }

  function Clamped(t: Target): Target {
    [Clamp(t[0]), Clamp(t[1]), Clamp(t[2])]
  }

  function Finals(w: Wheels): Target {
    [w[0].final, w[1].final, w[2].final]
  }

  function Speeds(w: Wheels): Target {
    [w[0].speed, w[1].speed, w[2].speed]
  }

  function Distance(w: Wheels, t: Target): nat {
    Max3(Abs(t[0] - w[0].speed), Abs(t[1] - w[1].speed), Abs(t[2] - w[2].speed))
  }

  /* The commands and the periodic event. */

  // A command to a new target divides by the distance to it.
  predicate SlewDefined(m: Motors, t: Target) {
    Clamped(t) == Finals(m.wheels) || Clamped(t) != Speeds(m.wheels)
  }

  function SlewTo(m: Motors, t: Target): Motors
    requires SlewDefined(m, t)
  {
    var goal, w := Clamped(t), m.wheels;
    if goal == Finals(w) then m.(voltageMode := false, timeout := 0)
    else
      var steps := Distance(w, goal);
      Motors([w[0].Begin(goal[0], steps), w[1].Begin(goal[1], steps), w[2].Begin(goal[2], steps)],
             steps, 0, false, 0)
  }

  function SetVoltage(m: Motors, p: Target): Motors {
    var w := m.wheels;
    m.(wheels := [w[0].(speed := Clamp(ToInt8(p[0]))), w[1].(speed := Clamp(ToInt8(p[1]))), w[2].(speed := Clamp(ToInt8(p[2])))],
       voltageMode := true, timeout := 0)
  }

  // One wheel set by hand; the ramp that may be pending and the timeout are left alone.
  function SetWheel(m: Motors, motor: int, s: int): Motors {
    var w := m.wheels;
    if 0 <= motor < NUM_MOTORS then
      m.(wheels := w[motor := w[motor].(speed := Clamp(s))], voltageMode := true)
    else m.(voltageMode := true)
  }

  predicate TimesOut(m: Motors) {
    m.timeout + 1 == TIMEOUT
  }

  predicate EventDefined(m: Motors) {
    TimesOut(m) && !m.voltageMode ==> SlewDefined(m, STOP)
  }

  function Timeout(m: Motors): Motors
    requires EventDefined(m)
  {
    if !TimesOut(m) then m.(timeout := m.timeout + 1)
    else if m.voltageMode then SetVoltage(m, STOP)
    else SlewTo(m, STOP)
  }

  function Advance(m: Motors): Motors {
    var w := m.wheels;
    if m.count < m.steps then m.(wheels := [w[0].Ramp(), w[1].Ramp(), w[2].Ramp()], count := m.count + 1)
    else if m.count == m.steps then m.(wheels := [w[0].Snap(), w[1].Snap(), w[2].Snap()], count := m.count + 1)
    else m
  }

  function Event(m: Motors): Motors
    requires EventDefined(m)
  {
    Advance(Timeout(m))
  }

  /* Omni-drive. */

  // The direction cosines of each wheel, times 1024.
  function Project(x: int, y: int, t: int): Target {
    [Trunc1024(x * -1008 + y * 178 + t * 1096),
     Trunc1024(x * 658 + y * 784 + t * 1096),
     Trunc1024(x * 350 + y * -962 + t * 1096)]
  }

  function Trunc1024(a: int): int {
    TruncDiv(a, 1024)
  }

  function XyTheta(x: int8, y: int8, t: int8): Target {
    var m := Project(x, y, t);
    var max := Max3(Abs(m[0]), Abs(m[1]), Abs(m[2]));
    if max > MAX_SPEED then
      [TruncDiv(m[0] * MAX_SPEED, max), TruncDiv(m[1] * MAX_SPEED, max), TruncDiv(m[2] * MAX_SPEED, max)]
    else m
  }

  function PowerOn(): Motors {
    var w := Wheel(0, 0, 0, 0, 0);
    Motors([w, w, w], 0, 1, false, 0)
  }

  /* The driver's own variables and code. */

  datatype MotorPacket = MotorPacket(header: uint8, setpoint: uint8, volt: uint8)

  class MotorDriver {
    const speed: array<int>
    const final: array<int>
    const float: array<int>
    const interval: array<int>
    ghost var start: seq<int>
    var slewSteps: nat
    var slewCount: nat
    var voltageMode: bool
    var timeoutCount: nat

    ghost predicate Valid()
      reads this
    {
      && speed.Length == final.Length == float.Length == interval.Length == |start| == NUM_MOTORS
      && speed != final && speed != float && speed != interval
      && final != float && final != interval && float != interval
    }

    ghost function Model(): Motors
      requires Valid()
      reads this, speed, final, float, interval
    {
      Motors([WheelAt(0), WheelAt(1), WheelAt(2)], slewSteps, slewCount, voltageMode, timeoutCount)
    }

    ghost function WheelAt(i: nat): Wheel
      requires Valid() && i < NUM_MOTORS
      reads this, speed, final, float, interval
    {
      Wheel(speed[i], final[i], start[i], float[i], interval[i])
    }

    constructor ()
      ensures Valid() && fresh(speed) && fresh(final) && fresh(float) && fresh(interval)
      ensures Model() == PowerOn()
    {
      speed := new int[NUM_MOTORS](_ => 0);
      final := new int[NUM_MOTORS](_ => 0);
      float := new int[NUM_MOTORS](_ => 0);
      interval := new int[NUM_MOTORS](_ => 0);
      start := [0, 0, 0];
      slewSteps, slewCount, voltageMode, timeoutCount := 0, 1, false, 0;
    }

    method SetSpeedSlew(speed100: int8, speed220: int8, speed340: int8)
      requires Valid() && SlewDefined(Model(), [speed100, speed220, speed340])
      modifies this, final, float, interval
      ensures Valid() && Model() == SlewTo(old(Model()), [speed100, speed220, speed340])
    {
      hide TruncDiv;
      voltageMode := false;
      timeoutCount := 0;
      var a, b, c := ClampSpeed(speed100), ClampSpeed(speed220), ClampSpeed(speed340);
      if a == final[0] && b == final[1] && c == final[2] {
        return;
      }
      SetSlewSteps(a, b, c);
      BeginWheel(0, a);
      BeginWheel(1, b);
      BeginWheel(2, c);
      slewCount := 0;
    }

    method BeginWheel(i: nat, target: int)
      requires Valid() && i < NUM_MOTORS && slewSteps > 0
      modifies final, interval, float, this`start
      ensures Valid()
      ensures WheelAt(i) == old(WheelAt(i)).Begin(target, slewSteps)
      ensures forall k: nat | k < NUM_MOTORS && k != i :: WheelAt(k) == old(WheelAt(k))
    {
      final[i] := target;
      interval[i] := TruncDiv((target - speed[i]) * ONE, slewSteps);
      float[i] := speed[i] * ONE;
      start := start[i := speed[i]];
    }

    method SetSlewSteps(a: int, b: int, c: int)
      requires Valid()
      modifies this`slewSteps
      ensures slewSteps == Distance(Model().wheels, [a, b, c])
      ensures [a, b, c] != Speeds(Model().wheels) ==> slewSteps > 0
    {
      slewSteps := Abs(a - speed[0]);
      if Abs(b - speed[1]) > slewSteps {
        slewSteps := Abs(b - speed[1]);
      }
      if Abs(c - speed[2]) > slewSteps {
        slewSteps := Abs(c - speed[2]);
      }
    }

    static function ClampSpeed(s: int): int {
      var low := if s < -MAX_SPEED then -MAX_SPEED else s;
      if low > MAX_SPEED then MAX_SPEED else low
    }

    method SetSpeedXyTheta(xvel: int8, yvel: int8, tvel: int8)
      requires Valid() && SlewDefined(Model(), XyTheta(xvel, yvel, tvel))
      modifies this, final, float, interval
      ensures Valid() && Model() == SlewTo(old(Model()), XyTheta(xvel, yvel, tvel))
    {
      var m100 := TruncDiv(xvel * -1008 + yvel * 178 + tvel * 1096, 1024);
      var m220 := TruncDiv(xvel * 658 + yvel * 784 + tvel * 1096, 1024);
      var m340 := TruncDiv(xvel * 350 + yvel * -962 + tvel * 1096, 1024);
      var max := Abs(m100);
      if Abs(m220) > max {
        max := Abs(m220);
      }
      if Abs(m340) > max {
        max := Abs(m340);
      }
      if max > MAX_SPEED {
        m100 := TruncDiv(m100 * MAX_SPEED, max);
        m220 := TruncDiv(m220 * MAX_SPEED, max);
        m340 := TruncDiv(m340 * MAX_SPEED, max);
      }
      XyThetaInRange(xvel, yvel, tvel);
      assert XyTheta(xvel, yvel, tvel) == [m100, m220, m340];
      SetSpeedSlew(m100, m220, m340);
    }

    method SetMotorSpeed(motor: int, s: int8)
      requires Valid()
      modifies speed, this`voltageMode
      ensures Model() == SetWheel(old(Model()), motor, s)
      ensures speed[..] == if 0 <= motor < NUM_MOTORS then old(speed[..])[motor := Clamp(s)] else old(speed[..])
    {
      voltageMode := true;
      if motor < 0 || motor >= NUM_MOTORS {
        return;
      }
      speed[motor] := ClampSpeed(s);
    }

    method SetMotorVoltage(pwm100: int, pwm220: int, pwm340: int)
      requires Valid()
      modifies speed, this`voltageMode, this`timeoutCount
      ensures Model() == SetVoltage(old(Model()), [pwm100, pwm220, pwm340])
    {
      voltageMode := true;
      timeoutCount := 0;
      SetMotorSpeed(0, ToInt8(pwm100));
      SetMotorSpeed(1, ToInt8(pwm220));
      SetMotorSpeed(2, ToInt8(pwm340));
    }

    // The periodic event; the packets are what is queued for the wheel controllers.
    method MotorEvent(volt: uint8, driveEnabled: bool, charging: bool) returns (tx: seq<MotorPacket>)
      requires Valid() && EventDefined(Model())
      modifies this, speed, final, float, interval
      ensures Valid() && Model() == Event(old(Model()))
      ensures |tx| == NUM_MOTORS
      ensures forall i | 0 <= i < NUM_MOTORS ::
                tx[i] == MotorPacket(if voltageMode then PWM_HEADER else PACKET_HEADER,
                                     if driveEnabled && !charging then speed[i] % 0x100 else 0, volt)
    {
      timeoutCount := timeoutCount + 1;
      if timeoutCount == TIMEOUT {
        if !voltageMode {
          SetSpeedSlew(0, 0, 0);
        } else {
          SetMotorVoltage(0, 0, 0);
        }
        timeoutCount := 0;
      }
      assert Model() == Timeout(old(Model()));
      AdvanceSlew();
      tx := [];
      var i := 0;
      while i < NUM_MOTORS
        invariant 0 <= i <= NUM_MOTORS && |tx| == i
        invariant forall k | 0 <= k < i ::
                    tx[k] == MotorPacket(if voltageMode then PWM_HEADER else PACKET_HEADER,
                                         if driveEnabled && !charging then speed[k] % 0x100 else 0, volt)
      {
        var header := if !voltageMode then PACKET_HEADER else PWM_HEADER;
        var setpoint := if !driveEnabled || charging then 0 else speed[i] % 0x100;
        tx := tx + [MotorPacket(header, setpoint, volt)];
        i := i + 1;
      }
    }

    method AdvanceSlew()
      requires Valid()
      modifies this`slewCount, speed, float
      ensures Valid() && Model() == Advance(old(Model()))
    {
      if slewCount < slewSteps {
        RampAll();
        slewCount := slewCount + 1;
      } else if slewCount == slewSteps {
        SnapAll();
        slewCount := slewCount + 1;
      }
    }

    method RampAll()
      requires Valid()
      modifies speed, float
      ensures forall k: nat | k < NUM_MOTORS :: WheelAt(k) == old(WheelAt(k)).Ramp()
    {
      var i := 0;
      while i < NUM_MOTORS
        invariant 0 <= i <= NUM_MOTORS
        invariant forall k: nat | k < i :: WheelAt(k) == old(WheelAt(k)).Ramp()
        invariant forall k: nat | i <= k < NUM_MOTORS :: WheelAt(k) == old(WheelAt(k))
      {
        float[i] := float[i] + interval[i];
        speed[i] := ToInt8(float[i] / ONE);
        i := i + 1;
      }
    }

    method SnapAll()
      requires Valid()
      modifies speed
      ensures forall k: nat | k < NUM_MOTORS :: WheelAt(k) == old(WheelAt(k)).Snap()
    {
      var i := 0;
      while i < NUM_MOTORS
        invariant 0 <= i <= NUM_MOTORS
        invariant forall k: nat | k < i :: WheelAt(k) == old(WheelAt(k)).Snap()
        invariant forall k: nat | i <= k < NUM_MOTORS :: WheelAt(k) == old(WheelAt(k))
      {
        speed[i] := final[i];
        i := i + 1;
      }
    }
  }

  /* Omni-drive results fit the speed range, keep every wheel's direction, and use the whole
     range when they had to be scaled. */

  lemma ScaledWheel(m: int, max: int)
    requires max > MAX_SPEED && Abs(m) <= max
    ensures var s := TruncDiv(m * MAX_SPEED, max);
            && Abs(s) <= MAX_SPEED && (m >= 0 ==> s >= 0) && (m <= 0 ==> s <= 0)
            && (Abs(m) == max ==> Abs(s) == MAX_SPEED)
            && Abs(s) * max <= Abs(m) * MAX_SPEED < Abs(s) * max + max
  {
    var a := Abs(m) * MAX_SPEED;
    assert Abs(TruncDiv(m * MAX_SPEED, max)) == a / max;
    QuotientBounds(a, max);
    QuotientAtMost(a, max, MAX_SPEED);
    if Abs(m) == max {
      QuotientExact(a, max, MAX_SPEED);
    }
  }

  lemma XyThetaInRange(x: int8, y: int8, t: int8)
    ensures var v, m := XyTheta(x, y, t), Project(x, y, t);
            var max := Max3(Abs(m[0]), Abs(m[1]), Abs(m[2]));
            forall i | 0 <= i < NUM_MOTORS ::
              && Abs(v[i]) <= MAX_SPEED
              && (m[i] >= 0 ==> v[i] >= 0) && (m[i] <= 0 ==> v[i] <= 0)
              && (max > MAX_SPEED && Abs(m[i]) == max ==> Abs(v[i]) == MAX_SPEED)
  {
    var m := Project(x, y, t);
    var max := Max3(Abs(m[0]), Abs(m[1]), Abs(m[2]));
    if max > MAX_SPEED {
      ScaledWheel(m[0], max);
      ScaledWheel(m[1], max);
      ScaledWheel(m[2], max);
    }
  }
}
