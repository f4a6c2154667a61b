/**
  The status packet: how the robot packs its sensor readings, and how the host unpacks them.
  Bit operations are arithmetic: x >> k is floor division, x & (2^k - 1) a remainder.
*/
module StatusFrames {
  import opened Words

  /* Bitwise or. */

  function Or(a: int, b: nat): int
    decreases b
  {
    if b == 0 then a
    else 2 * Or(a / 2, b / 2) + if a % 2 == 1 || b % 2 == 1 then 1 else 0
  }

  lemma {:induction false} OrLow(a: int, b: nat, k: nat)
    requires b < Power(2, k)
    ensures Or(a * Power(2, k), b) == a * Power(2, k) + b
    decreases k
  {
    if b > 0 {
      assert a * Power(2, k) == 2 * (a * Power(2, k - 1));
      OrLow(a, b / 2, k - 1);
    }
  }

  lemma {:induction false} OrHigh(a: nat, b: nat, k: nat)
    requires a < Power(2, k)
    ensures Or(a, b * Power(2, k)) == a + b * Power(2, k)
    decreases k
  {
    if k == 0 {
      OrZero(b);
    } else if b > 0 {
      assert b * Power(2, k) == 2 * (b * Power(2, k - 1));
      assert b * Power(2, k - 1) > 0;
      OrHigh(a / 2, b, k - 1);
    }
  }

  lemma {:induction false} OrZero(b: nat)
    ensures Or(0, b) == b
  {
    if b > 0 {
      OrZero(b / 2);
    }
  }

  // The shifts that occur.
  lemma ShiftPowers()
    ensures Power(2, 2) == 4 && Power(2, 4) == 16 && Power(2, 6) == 64 && Power(2, 8) == 0x100
    ensures Power(2, 16) == 0x1_0000 && Power(2, 24) == 0x100_0000
  {
    assert Power(2, 8) == 0x100;
    assert Power(2, 12) == 0x1000;
    assert Power(2, 16) == 0x1_0000;
    assert Power(2, 20) == 0x10_0000;
  }

  // Four two-bit fields in one byte, and the j-th of them.
  function Pack(a: int, b: int, c: int, d: int): int {
    Or(Or(Or(a % 4 * 64, b % 4 * 16), c % 4 * 4), d % 4)
  }

  function Field(holding: uint8, j: nat): nat {
    match j
    case 0 => holding / 64
    case 1 => holding / 16 % 4
    case 2 => holding / 4 % 4
    case _ => holding % 4
  }

  lemma OrLow2(a: int, b: nat)
    ensures b < 4 ==> Or(a * 4, b) == a * 4 + b
    ensures b < 16 ==> Or(a * 16, b) == a * 16 + b
  {
    ShiftPowers();
    hide Or;
    if b < 4 { OrLow(a, b, 2); }
    if b < 16 { OrLow(a, b, 4); }
  }

  lemma OrLow8(a: int, b: nat)
    ensures b < 64 ==> Or(a * 64, b) == a * 64 + b
    ensures b < 0x100 ==> Or(a * 0x100, b) == a * 0x100 + b
  {
    ShiftPowers();
    hide Or;
    if b < 64 { OrLow(a, b, 6); }
    if b < 0x100 { OrLow(a, b, 8); }
  }

  lemma PackIsSum(a: int, b: int, c: int, d: int)
    ensures Pack(a, b, c, d) == a % 4 * 64 + b % 4 * 16 + c % 4 * 4 + d % 4
  {
    hide Or;
    OrLow8(a % 4, b % 4 * 16);
    OrLow2(a % 4 * 4 + b % 4, c % 4 * 4);
    OrLow2(a % 4 * 16 + b % 4 * 4 + c % 4, d % 4);
  }

  lemma FieldsOfSum(a: nat, b: nat, c: nat, d: nat)
    requires a < 4 && b < 4 && c < 4 && d < 4
    ensures var h := a * 64 + b * 16 + c * 4 + d;
            && 0 <= h < 0x100
            && Field(h, 0) == a && Field(h, 1) == b && Field(h, 2) == c && Field(h, 3) == d
  {
    var h := a * 64 + b * 16 + c * 4 + d;
    Remainder(h, a, b * 16 + c * 4 + d, 64);
    Remainder(h, a * 4 + b, c * 4 + d, 16);
    Remainder(a * 4 + b, a, b, 4);
    Remainder(h, a * 16 + b * 4 + c, d, 4);
    Remainder(a * 16 + b * 4 + c, a * 4 + b, c, 4);
  }

  lemma FieldsOfPack(a: int, b: int, c: int, d: int)
    ensures 0 <= Pack(a, b, c, d) < 0x100
    ensures var h := Pack(a, b, c, d);
            Field(h, 0) == a % 4 && Field(h, 1) == b % 4 && Field(h, 2) == c % 4 && Field(h, 3) == d % 4
  {
    hide Pack, Field;
    PackIsSum(a, b, c, d);
    FieldsOfSum(a % 4, b % 4, c % 4, d % 4);
  }

  /* The packet. */

  const MOTORS := 3
  const PAYLOAD := 77
  const STATE_LENGTH := 79

  datatype Motor = Motor(command: int, clicks: int, current: int, temp: int)

  // The values read when a packet is sent: integers of any width.
  datatype Readings = Readings(
    voltage: int, chargeState: int, bat40: int, bat160: int, bat280: int,
    motors: seq<Motor>, accel: seq<int>, mag: seq<int>, gyro: int,
    distance: seq<int>, light: seq<int>, thermal: seq<int>, irLight: seq<int>,
    errors: int, commandsRead: int, charging: bool, driving: bool, monitored: bool)

  predicate Complete(r: Readings) {
    && |r.motors| == MOTORS && |r.accel| == 3 && |r.mag| == 3 && |r.distance| == 10
    && |r.light| == 4 && |r.thermal| == 8 && |r.irLight| == 8
  }

  function MotorByte(m: Motor, j: nat): uint8 {
    match j
    case 0 => m.command % 0x100
    case 1 => m.clicks % 0x100
    case 2 => m.current % 0x100
    case _ => m.temp % 0x100
  }

  function PowerByte(r: Readings, j: nat): uint8 {
    match j
    case 0 => r.voltage % 0x100
    case 1 => r.chargeState % 0x100
    case 2 => r.bat40 % 0x100
    case 3 => r.bat160 % 0x100
    case _ => r.bat280 % 0x100
  }

  // Three high bytes, then the low nibbles.
  function AccelByte(a: seq<int>, j: nat): uint8
    requires |a| == 3
  {
    if j < 3 then a[j] / 16 % 0x100
    else if j == 3 then Or(a[0] * 16, a[1] % 16) % 0x100
    else a[2] * 16 % 0x100
  }

  function MagByte(m: seq<int>, gyro: int, j: nat): uint8
    requires |m| == 3
  {
    if j < 3 then m[j] / 4 % 0x100
    else if j == 3 then (gyro / 4 - 128) % 0x100
    else Pack(m[0], m[1], m[2], gyro) % 0x100
  }

  function DistanceByte(d: seq<int>, j: nat): uint8
    requires |d| == 10
  {
    if j < 10 then d[j] / 4 % 0x100
    else if j == 10 then Pack(d[0], d[1], d[2], d[3]) % 0x100
    else if j == 11 then Pack(d[4], d[5], d[6], d[7]) % 0x100
    else Pack(d[8], d[9], 0, 0) % 0x100
  }

  function LightByte(d: seq<int>, j: nat): uint8
    requires |d| == 4
  {
    if j < 4 then d[j] / 4 % 0x100 else Pack(d[0], d[1], d[2], d[3]) % 0x100
  }

  function ThermalByte(t: seq<int>, j: nat): uint8
    requires j < 2 * |t|
  {
    if j % 2 == 0 then t[j / 2] % 0x100 else t[j / 2] / 0x100 % 0x100
  }

  function IrLightByte(d: seq<int>, j: nat): uint8
    requires |d| == 8
  {
    if j < 8 then d[j] % 0x100 / 4
    else if j == 8 then Pack(d[0], d[1], d[2], d[3]) % 0x100
    else Pack(d[4], d[5], d[6], d[7]) % 0x100
  }

  // The charge state goes out a second time, in place of the unused top error byte.
  function StatusByte(r: Readings, j: nat): uint8 {
    match j
    case 0 => r.chargeState % 0x100
    case 1 => r.errors / 0x1_0000 % 0x100
    case 2 => r.errors / 0x100 % 0x100
    case 3 => r.errors % 0x100
    case 4 => r.commandsRead % 0x100
    case _ => Flags(r)
  }

  function Flags(r: Readings): uint8 {
    (if r.charging then 128 else 0) + (if r.driving then 64 else 0) + if r.monitored then 1 else 0
  }

  // The k-th byte after the header.
  function PayloadByte(r: Readings, k: nat): uint8
    requires Complete(r) && k < PAYLOAD
  {
    if k < 5 then PowerByte(r, k)
    else if k < 17 then MotorByte(r.motors[(k - 5) / 4], (k - 5) % 4)
    else if k < 22 then AccelByte(r.accel, k - 17)
    else if k < 27 then MagByte(r.mag, r.gyro, k - 22)
    else if k < 40 then DistanceByte(r.distance, k - 27)
    else if k < 45 then LightByte(r.light, k - 40)
    else if k < 61 then ThermalByte(r.thermal, k - 45)
    else if k < 71 then IrLightByte(r.irLight, k - 61)
    else StatusByte(r, k - 71)
  }

  function Payload(r: Readings): (p: seq<uint8>)
    requires Complete(r)
    ensures |p| == PAYLOAD && forall k | 0 <= k < PAYLOAD :: p[k] == PayloadByte(r, k)
  {
    seq(PAYLOAD, k requires 0 <= k < PAYLOAD => PayloadByte(r, k))
  }

  /* What the host makes of a packet. */

  datatype StateDrop = StateDrop(
    voltage: int, chargeState: int, bat40: int, bat160: int, bat280: int,
    motors: seq<Motor>, accel: seq<int>, mag: seq<int>, rotation: int,
    distance: seq<int>, light: seq<int>, thermal: seq<int>, irLight: seq<int>,
    errors: int, cycleTime: int, monitor: int, onShore: bool)

  // Ors the fields of holding into four values, or as many as there are.
  function Merge(values: seq<int>, from: nat, holding: uint8): (r: seq<int>)
    ensures |r| == |values|
    ensures forall k | 0 <= k < |r| ::
              r[k] == if from <= k < from + 4 then Or(values[k], Field(holding, k - from)) else values[k]
  {
    seq(|values|, k requires 0 <= k < |values| =>
      if from <= k < from + 4 then Or(values[k], Field(holding, k - from)) else values[k])
  }

  // Wire bytes from position i, each shifted.
  function Scaled(buf: seq<uint8>, i: nat, n: nat, unit: int): (r: seq<int>)
    requires i + n <= |buf|
    ensures |r| == n && forall k | 0 <= k < n :: r[k] == buf[i + k] * unit
  {
    seq(n, k requires 0 <= k < n => buf[i + k] * unit)
  }

  function MotorAt(buf: seq<uint8>, i: nat): Motor
    requires i + 4 <= |buf|
  {
    Motor(ToInt8(buf[i]), ToInt8(buf[i + 1]), buf[i + 2], buf[i + 3])
  }

  function AccelAt(buf: seq<uint8>, i: nat): seq<int>
    requires i + 5 <= |buf|
  {
    [Or(ToInt8(buf[i]) * 16, buf[i + 3] / 16), Or(ToInt8(buf[i + 1]) * 16, buf[i + 3] % 16),
     Or(ToInt8(buf[i + 2]) * 16, buf[i + 4] / 16)]
  }

  function MagAt(buf: seq<uint8>, i: nat): seq<int>
    requires i + 5 <= |buf|
  {
    Merge(Scaled(buf, i, 3, 4), 0, buf[i + 4])
  }

  function RotationAt(buf: seq<uint8>, i: nat): int
    requires i + 5 <= |buf|
  {
    Or(ToInt8(buf[i + 3]) * 4, Field(buf[i + 4], 3))
  }

  function DistanceAt(buf: seq<uint8>, i: nat): seq<int>
    requires i + 13 <= |buf|
  {
    Merge(Merge(Merge(Scaled(buf, i, 10, 1), 0, buf[i + 10]), 4, buf[i + 11]), 8, buf[i + 12])
  }

  function LightAt(buf: seq<uint8>, i: nat): seq<int>
    requires i + 5 <= |buf|
  {
    Merge(Scaled(buf, i, 4, 4), 0, buf[i + 4])
  }

  function ThermalAt(buf: seq<uint8>, i: nat): (r: seq<int>)
    requires i + 16 <= |buf|
    ensures |r| == 8 && forall k | 0 <= k < 8 :: r[k] == Or(buf[i + 2 * k], buf[i + 2 * k + 1] as int * 0x100)
  {
    seq(8, k requires 0 <= k < 8 => Or(buf[i + 2 * k], buf[i + 2 * k + 1] as int * 0x100))
  }

  function IrLightAt(buf: seq<uint8>, i: nat): seq<int>
    requires i + 10 <= |buf|
  {
    Merge(Merge(Scaled(buf, i, 8, 4), 0, buf[i + 8]), 4, buf[i + 9])
  }

  function ErrorsAt(buf: seq<uint8>, i: nat): int
    requires i + 4 <= |buf|
  {
    Or(Or(Or(buf[i] as int * 0x100_0000, buf[i + 1] as int * 0x1_0000), buf[i + 2] as int * 0x100), buf[i + 3])
  }

  function Decode(buf: seq<uint8>): (d: StateDrop)
    requires |buf| == STATE_LENGTH
  {
    StateDrop(
      buf[0], buf[1], buf[2], buf[3], buf[4], [MotorAt(buf, 5), MotorAt(buf, 9), MotorAt(buf, 13)],
      AccelAt(buf, 17), MagAt(buf, 22), RotationAt(buf, 22), DistanceAt(buf, 27), LightAt(buf, 40),
      ThermalAt(buf, 45), IrLightAt(buf, 61), ErrorsAt(buf, 71), buf[75], buf[76], buf[0] > 170)
  }

  // The reading in as many bits as the packet has for it, as a signed value.
  function Signed12(v: int): int {
    (v + 0x800) % 0x1000 - 0x800
  }

  // What gets through, reading by reading.
  predicate Delivers(d: StateDrop, r: Readings)
    requires Complete(r)
  {
    && d.voltage == r.voltage % 0x100 && d.chargeState == r.chargeState % 0x100
    && d.bat40 == r.bat40 % 0x100 && d.bat160 == r.bat160 % 0x100 && d.bat280 == r.bat280 % 0x100
    && |d.motors| == |r.motors|
    && (forall k | 0 <= k < |r.motors| ::
          var m := r.motors[k];
          d.motors[k] == Motor(ToInt8(m.command), ToInt8(m.clicks), m.current % 0x100, m.temp % 0x100))
    && |d.accel| == |r.accel| && (forall k | 0 <= k < |r.accel| :: d.accel[k] == Signed12(r.accel[k]))
    && |d.mag| == |r.mag| && (forall k | 0 <= k < |r.mag| :: d.mag[k] == r.mag[k] % 0x400)
    && d.rotation == r.gyro % 0x400 - 512
    && |d.distance| == |r.distance|
    && (forall k | 0 <= k < |r.distance| :: d.distance[k] == Or(r.distance[k] % 0x400 / 4, r.distance[k] % 4))
    && |d.light| == |r.light| && (forall k | 0 <= k < |r.light| :: d.light[k] == r.light[k] % 0x400)
    && |d.thermal| == |r.thermal|
    && (forall k | 0 <= k < |r.thermal| :: d.thermal[k] == r.thermal[k] % 0x1_0000)
    && |d.irLight| == |r.irLight|
    && (forall k | 0 <= k < |r.irLight| :: d.irLight[k] == r.irLight[k] % 0x100)
    && d.errors == r.chargeState % 0x100 * 0x100_0000 + r.errors % 0x100_0000
    && d.cycleTime == r.commandsRead % 0x100 && Monitors(d.monitor, r)
    && d.onShore == (r.voltage % 0x100 > 170)
  }

  // Bit 7 says that the robot may charge, bit 6 that its drive is on, bit 0 that the monitor is.
  predicate Monitors(byte: int, r: Readings) {
    && 0 <= byte < 0x100 && byte / 2 % 32 == 0
    && (byte / 128 == 1 <==> r.charging) && (byte / 64 % 2 == 1 <==> r.driving) && (byte % 2 == 1 <==> r.monitored)
  }

  /* Field by field. */

  lemma AccelBits(v: int)
    ensures Or(ToInt8(v / 16 % 0x100) * 16, v % 16) == Signed12(v)
  {
    hide Or;
    OrLow2(ToInt8(v / 16 % 0x100), v % 16);
    var w := v % 0x1000;
    Remainder(v / 16, v / 0x1000, w / 16, 0x100);
    Remainder(v, v / 16, w % 16, 16);
    if w < 0x800 {
      Remainder(v + 0x800, v / 0x1000, w + 0x800, 0x1000);
    } else {
      Remainder(v + 0x800, v / 0x1000 + 1, w - 0x800, 0x1000);
    }
  }

  lemma AccelNibbles(x: int, n: nat)
    requires n < 16
    ensures (x * 16 + n) % 0x100 / 16 == x % 16 && (x * 16 + n) % 0x100 % 16 == n
  {
    Remainder(x * 16 + n, x / 16, x % 16 * 16 + n, 0x100);
  }

  lemma TenBits(v: int)
    ensures v / 4 % 0x100 == v % 0x400 / 4
    ensures Or(v / 4 % 0x100 * 4, v % 4) == v % 0x400
  {
    hide Or;
    Remainder(v / 4, v / 0x400, v % 0x400 / 4, 0x100);
    LowTwoBits(v);
    OrLow2(v / 4 % 0x100, v % 4);
  }

  lemma GyroByte(v: int)
    ensures ToInt8((v / 4 - 128) % 0x100) == v % 0x400 / 4 - 128
  {
    var t, n := v % 0x400 / 4, v / 0x400;
    Remainder(v / 4, n, t, 0x100);
    if t < 128 {
      Remainder(v / 4 - 128, n - 1, t + 128, 0x100);
    } else {
      Remainder(v / 4 - 128, n, t - 128, 0x100);
    }
  }

  lemma LowTwoBits(v: int)
    ensures v % 0x400 / 4 * 4 + v % 4 == v % 0x400
    ensures v % 0x100 / 4 * 4 + v % 4 == v % 0x100
  {
    var w := v % 0x400;
    Remainder(v, v / 0x400 * 0x100 + w / 4, w % 4, 4);
    var x := v % 0x100;
    Remainder(v, v / 0x100 * 64 + x / 4, x % 4, 4);
  }

  lemma GyroBits(v: int)
    ensures Or(ToInt8((v / 4 - 128) % 0x100) * 4, v % 4) == v % 0x400 - 512
  {
    hide Or, ToInt8;
    GyroByte(v);
    LowTwoBits(v);
    OrLow2(v % 0x400 / 4 - 128, v % 4);
  }

  lemma EightBits(v: int)
    ensures Or(v % 0x100 / 4 * 4, v % 4) == v % 0x100
  {
    hide Or;
    LowTwoBits(v);
    OrLow2(v % 0x100 / 4, v % 4);
  }

  lemma ThermalBits(v: int)
    ensures Or(v % 0x100, v / 0x100 % 0x100 * 0x100) == v % 0x1_0000
  {
    ShiftPowers();
    hide Or;
    OrHigh(v % 0x100, v / 0x100 % 0x100, 8);
  }

  lemma ErrorBits(x: int, y: int, z: int, d: int)
    requires 0 <= y < 0x100 && 0 <= z < 0x100 && 0 <= d < 0x100
    ensures Or(Or(Or(x * 0x100_0000, y * 0x1_0000), z * 0x100), d)
         == x * 0x100_0000 + y * 0x1_0000 + z * 0x100 + d
  {
    ShiftPowers();
    hide Or, Power;
    OrLow(x, y * 0x1_0000, 24);
    OrLow(x * 0x100 + y, z * 0x100, 16);
    OrLow8(x * 0x1_0000 + y * 0x100 + z, d);
  }

  lemma ThreeBytes(v: int)
    ensures v / 0x1_0000 % 0x100 * 0x1_0000 + v / 0x100 % 0x100 * 0x100 + v % 0x100 == v % 0x100_0000
  {
    var w := v % 0x100_0000;
    Remainder(v / 0x1_0000, v / 0x100_0000, w / 0x1_0000, 0x100);
    Remainder(v / 0x100, v / 0x1_0000, w % 0x1_0000 / 0x100, 0x100);
  }

  /* Group by group, each at its place i in the packet. */

  lemma MotorDelivered(m: Motor, buf: seq<uint8>, i: nat)
    requires i + 4 <= |buf| && forall j | 0 <= j < 4 :: buf[i + j] == MotorByte(m, j)
    ensures MotorAt(buf, i) == Motor(ToInt8(m.command), ToInt8(m.clicks), m.current % 0x100, m.temp % 0x100)
  {
    assert buf[i + 0] == MotorByte(m, 0) && buf[i + 1] == MotorByte(m, 1);
    assert buf[i + 2] == MotorByte(m, 2) && buf[i + 3] == MotorByte(m, 3);
  }

  lemma AccelDelivered(a: seq<int>, buf: seq<uint8>, i: nat)
    requires |a| == 3 && i + 5 <= |buf| && forall j | 0 <= j < 5 :: buf[i + j] == AccelByte(a, j)
    ensures AccelAt(buf, i) == [Signed12(a[0]), Signed12(a[1]), Signed12(a[2])]
  {
    hide Or, ToInt8, Signed12;
    assert buf[i + 0] == AccelByte(a, 0) && buf[i + 1] == AccelByte(a, 1) && buf[i + 2] == AccelByte(a, 2);
    assert buf[i + 3] == AccelByte(a, 3) && buf[i + 4] == AccelByte(a, 4);
    OrLow2(a[0], a[1] % 16);
    AccelNibbles(a[0], a[1] % 16);
    AccelNibbles(a[2], 0);
    AccelBits(a[0]);
    AccelBits(a[1]);
    AccelBits(a[2]);
  }

  lemma MagDelivered(m: seq<int>, gyro: int, buf: seq<uint8>, i: nat)
    requires |m| == 3 && i + 5 <= |buf| && forall j | 0 <= j < 5 :: buf[i + j] == MagByte(m, gyro, j)
    ensures MagAt(buf, i) == [m[0] % 0x400, m[1] % 0x400, m[2] % 0x400]
    ensures RotationAt(buf, i) == gyro % 0x400 - 512
  {
    hide Or, Pack, Field, ToInt8;
    assert buf[i + 0] == MagByte(m, gyro, 0) && buf[i + 1] == MagByte(m, gyro, 1);
    assert buf[i + 2] == MagByte(m, gyro, 2);
    assert buf[i + 3] == MagByte(m, gyro, 3) && buf[i + 4] == MagByte(m, gyro, 4);
    FieldsOfPack(m[0], m[1], m[2], gyro);
    TenBits(m[0]);
    TenBits(m[1]);
    TenBits(m[2]);
    GyroBits(gyro);
  }

  lemma MergedThrice(values: seq<int>, f: uint8, g: uint8, h: uint8, k: nat)
    requires |values| == 10 && k < 10
    ensures Merge(Merge(Merge(values, 0, f), 4, g), 8, h)[k]
         == Or(values[k], if k < 4 then Field(f, k) else if k < 8 then Field(g, k - 4) else Field(h, k - 8))
  {
    hide Or, Field;
  }

  lemma DistanceDelivered(d: seq<int>, buf: seq<uint8>, i: nat)
    requires |d| == 10 && i + 13 <= |buf| && forall j | 0 <= j < 13 :: buf[i + j] == DistanceByte(d, j)
    ensures |DistanceAt(buf, i)| == 10
    ensures forall k | 0 <= k < 10 :: DistanceAt(buf, i)[k] == Or(d[k] % 0x400 / 4, d[k] % 4)
  {
    hide Or, Pack, Field;
    var f, g, h := buf[i + 10], buf[i + 11], buf[i + 12];
    assert f == DistanceByte(d, 10) && g == DistanceByte(d, 11) && h == DistanceByte(d, 12);
    FieldsOfPack(d[0], d[1], d[2], d[3]);
    FieldsOfPack(d[4], d[5], d[6], d[7]);
    FieldsOfPack(d[8], d[9], 0, 0);
    forall k | 0 <= k < 10 ensures DistanceAt(buf, i)[k] == Or(d[k] % 0x400 / 4, d[k] % 4) {
      assert buf[i + k] == DistanceByte(d, k);
      TenBits(d[k]);
      MergedThrice(Scaled(buf, i, 10, 1), f, g, h, k);
      hide Merge;
      assert (if k < 4 then Field(f, k) else if k < 8 then Field(g, k - 4) else Field(h, k - 8)) == d[k] % 4;
    }
  }

  lemma LightDelivered(d: seq<int>, buf: seq<uint8>, i: nat)
    requires |d| == 4 && i + 5 <= |buf| && forall j | 0 <= j < 5 :: buf[i + j] == LightByte(d, j)
    ensures LightAt(buf, i) == [d[0] % 0x400, d[1] % 0x400, d[2] % 0x400, d[3] % 0x400]
  {
    hide Or, Pack, Field;
    assert buf[i + 4] == LightByte(d, 4);
    FieldsOfPack(d[0], d[1], d[2], d[3]);
    forall k | 0 <= k < 4
      ensures Scaled(buf, i, 4, 4)[k] == d[k] / 4 % 0x100 * 4
      ensures Or(d[k] / 4 % 0x100 * 4, d[k] % 4) == d[k] % 0x400
    {
      assert buf[i + k] == LightByte(d, k);
      TenBits(d[k]);
    }
  }

  lemma ThermalDelivered(t: seq<int>, buf: seq<uint8>, i: nat)
    requires |t| == 8 && i + 16 <= |buf| && forall j | 0 <= j < 16 :: buf[i + j] == ThermalByte(t, j)
    ensures forall k | 0 <= k < 8 :: ThermalAt(buf, i)[k] == t[k] % 0x1_0000
  {
    hide Or;
    forall k | 0 <= k < 8 ensures ThermalAt(buf, i)[k] == t[k] % 0x1_0000 {
      assert buf[i + 2 * k] == ThermalByte(t, 2 * k);
      assert buf[i + (2 * k + 1)] == ThermalByte(t, 2 * k + 1);
      ThermalBits(t[k]);
    }
  }

  lemma MergedTwice(values: seq<int>, h: uint8, g: uint8, k: nat)
    requires |values| == 8 && k < 8
    ensures Merge(Merge(values, 0, h), 4, g)[k] == Or(values[k], if k < 4 then Field(h, k) else Field(g, k - 4))
  {
    hide Or, Field;
  }

  lemma IrLightDelivered(d: seq<int>, buf: seq<uint8>, i: nat)
    requires |d| == 8 && i + 10 <= |buf| && forall j | 0 <= j < 10 :: buf[i + j] == IrLightByte(d, j)
    ensures |IrLightAt(buf, i)| == 8
    ensures forall k | 0 <= k < 8 :: IrLightAt(buf, i)[k] == d[k] % 0x100
  {
    hide Or, Pack, Field;
    assert buf[i + 8] == IrLightByte(d, 8) && buf[i + 9] == IrLightByte(d, 9);
    FieldsOfPack(d[0], d[1], d[2], d[3]);
    FieldsOfPack(d[4], d[5], d[6], d[7]);
    forall k | 0 <= k < 8 ensures IrLightAt(buf, i)[k] == d[k] % 0x100 {
      assert buf[i + k] == IrLightByte(d, k);
      EightBits(d[k]);
      MergedTwice(Scaled(buf, i, 8, 4), buf[i + 8], buf[i + 9], k);
      hide Merge;
      assert (if k < 4 then Field(buf[i + 8], k) else Field(buf[i + 9], k - 4)) == d[k] % 4;
    }
  }

  lemma ErrorsDelivered(r: Readings, buf: seq<uint8>, i: nat)
    requires i + 6 <= |buf| && forall j | 0 <= j < 6 :: buf[i + j] == StatusByte(r, j)
    ensures ErrorsAt(buf, i) == r.chargeState % 0x100 * 0x100_0000 + r.errors % 0x100_0000
    ensures buf[i + 4] == r.commandsRead % 0x100 && buf[i + 5] == Flags(r)
  {
    hide Or, Flags;
    assert buf[i + 0] == StatusByte(r, 0) && buf[i + 1] == StatusByte(r, 1) && buf[i + 2] == StatusByte(r, 2);
    assert buf[i + 3] == StatusByte(r, 3) && buf[i + 4] == StatusByte(r, 4) && buf[i + 5] == StatusByte(r, 5);
    ErrorBits(buf[i], buf[i + 1], buf[i + 2], buf[i + 3]);
    ThreeBytes(r.errors);
  }

  lemma PowerDelivered(r: Readings, buf: seq<uint8>)
    requires 5 <= |buf| && forall j | 0 <= j < 5 :: buf[j] == PowerByte(r, j)
    ensures buf[0] == r.voltage % 0x100 && buf[1] == r.chargeState % 0x100 && buf[2] == r.bat40 % 0x100
    ensures buf[3] == r.bat160 % 0x100 && buf[4] == r.bat280 % 0x100
  {
    assert buf[0] == PowerByte(r, 0) && buf[1] == PowerByte(r, 1) && buf[2] == PowerByte(r, 2);
    assert buf[3] == PowerByte(r, 3) && buf[4] == PowerByte(r, 4);
  }

  // The groups of a packet, at their places.
  lemma Groups(r: Readings, buf: seq<uint8>)
    requires Complete(r) && |buf| == STATE_LENGTH && buf[..PAYLOAD] == Payload(r)
    ensures forall j | 0 <= j < 5 :: buf[j] == PowerByte(r, j)
    ensures forall j | 0 <= j < 4 :: buf[5 + j] == MotorByte(r.motors[0], j)
    ensures forall j | 0 <= j < 4 :: buf[9 + j] == MotorByte(r.motors[1], j)
    ensures forall j | 0 <= j < 4 :: buf[13 + j] == MotorByte(r.motors[2], j)
    ensures forall j | 0 <= j < 5 :: buf[17 + j] == AccelByte(r.accel, j)
    ensures forall j | 0 <= j < 5 :: buf[22 + j] == MagByte(r.mag, r.gyro, j)
    ensures forall j | 0 <= j < 13 :: buf[27 + j] == DistanceByte(r.distance, j)
    ensures forall j | 0 <= j < 5 :: buf[40 + j] == LightByte(r.light, j)
    ensures forall j | 0 <= j < 16 :: buf[45 + j] == ThermalByte(r.thermal, j)
    ensures forall j | 0 <= j < 10 :: buf[61 + j] == IrLightByte(r.irLight, j)
    ensures forall j | 0 <= j < 6 :: buf[71 + j] == StatusByte(r, j)
  {
    hide PowerByte, MotorByte, AccelByte, MagByte, DistanceByte, LightByte, ThermalByte, IrLightByte, StatusByte;
    forall k | 0 <= k < PAYLOAD ensures buf[k] == PayloadByte(r, k) {
      assert buf[..PAYLOAD][k] == buf[k];
    }
  }

  lemma FlagsMonitor(r: Readings)
    ensures Monitors(Flags(r), r)
  {
  }

  // Every reading arrives, in as many of its bits as the packet carries.
  lemma PacketDelivers(r: Readings, buf: seq<uint8>)
    requires Complete(r) && |buf| == STATE_LENGTH && buf[..PAYLOAD] == Payload(r)
    ensures Delivers(Decode(buf), r)
  {
    hide PowerByte, MotorByte, AccelByte, MagByte, DistanceByte, LightByte, ThermalByte, IrLightByte, StatusByte;
    hide MotorAt, AccelAt, MagAt, RotationAt, DistanceAt, LightAt, IrLightAt, ErrorsAt, Or, Signed12, ToInt8, Flags, Monitors;
    Groups(r, buf);
    hide Payload;
    FlagsMonitor(r);
    PowerDelivered(r, buf);
    MotorDelivered(r.motors[0], buf, 5);
    MotorDelivered(r.motors[1], buf, 9);
    MotorDelivered(r.motors[2], buf, 13);
    AccelDelivered(r.accel, buf, 17);
    MagDelivered(r.mag, r.gyro, buf, 22);
    DistanceDelivered(r.distance, buf, 27);
    LightDelivered(r.light, buf, 40);
    ThermalDelivered(r.thermal, buf, 45);
    IrLightDelivered(r.irLight, buf, 61);
    ErrorsDelivered(r, buf, 71);
  }

  /* The distances: the host adds the low bits without making room for them first. */

  lemma {:induction false} OrAtMostSum(a: nat, b: nat)
    ensures Or(a, b) <= a + b
    decreases b
  {
    if b > 0 {
      OrAtMostSum(a / 2, b / 2);
    }
  }

  lemma DistanceExactIff(v: nat)
    requires v < 0x400
    ensures Or(v / 4, v % 4) == v <==> v < 4
  {
    OrAtMostSum(v / 4, v % 4);
    if v < 4 {
      OrZero(v);
    }
  }
}
