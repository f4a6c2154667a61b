/**
  The omni-drive as geometry: which way each wheel turns for a motion of the body, by the
  angles at which the wheels stand.
*/
module Kinematics {
  import opened Words
  import opened Slew

  /* Sines and cosines of the three wheel angles, in thousandths. */

  datatype Wheel3 = At100 | At220 | At340

  function Sin(w: Wheel3): int {
    match w case At100 => 985 case At220 => -643 case At340 => -342
  }

  function Cos(w: Wheel3): int {
    match w case At100 => -174 case At220 => -766 case At340 => 940
  }

  // The distance of the wheels from the centre, in the units of the speeds.
  const RADIUS := 1070

  // The speed along the rim of the wheel at this angle, in thousandths, when the body moves
  // by (x, y) and turns by t.
  function Rim(w: Wheel3, x: int, y: int, t: int): int {
    -(x * Sin(w)) - y * Cos(w) + RADIUS * t
  }

  function Index(w: Wheel3): nat {
    match w case At100 => 0 case At220 => 1 case At340 => 2
  }

  /* The targets follow the geometry. */

  // Thousandths that the rounding of constants and quotients may cost.
  const SLACK := 1160

  lemma TruncationError(a: int)
    ensures 1024 * Trunc1024(a) - 1023 <= a <= 1024 * Trunc1024(a) + 1023
  {
    QuotientBounds(Abs(a), 1024);
  }

  lemma RowFollowsRim(w: Wheel3, x: int8, y: int8, t: int8)
    ensures Abs(1000 * Project(x, y, t)[Index(w)] - Rim(w, x, y, t)) <= SLACK
  {
    hide Trunc1024;
    match w
    case At100 => TruncationError(x * -1008 + y * 178 + t * 1096);
    case At220 => TruncationError(x * 658 + y * 784 + t * 1096);
    case At340 => TruncationError(x * 350 + y * -962 + t * 1096);
  }

  // Each wheel turns as its place demands, or in proportion when the fastest would have to
  // turn faster than 100: p is what the wheels are asked for before scaling.
  lemma TargetsFollowGeometry(x: int8, y: int8, t: int8) returns (p: Target)
    ensures forall w: Wheel3 :: Abs(1000 * p[Index(w)] - Rim(w, x, y, t)) <= SLACK
    ensures var v, max := XyTheta(x, y, t), Max3(Abs(p[0]), Abs(p[1]), Abs(p[2]));
            && (max <= 100 ==> v == p)
            && (max > 100 ==> forall i | 0 <= i < 3 ::
                  (v[i] == 0 || (v[i] > 0 <==> p[i] > 0)) && Abs(v[i]) * max <= Abs(p[i]) * 100 < Abs(v[i]) * max + max)
  {
    p := Project(x, y, t);
    forall w: Wheel3 ensures Abs(1000 * p[Index(w)] - Rim(w, x, y, t)) <= SLACK {
      RowFollowsRim(w, x, y, t);
    }
    var max := Max3(Abs(p[0]), Abs(p[1]), Abs(p[2]));
    hide Project;
    if max > 100 {
      ScaledWheel(p[0], max);
      ScaledWheel(p[1], max);
      ScaledWheel(p[2], max);
      hide TruncDiv;
    }
  }

  /* Odometry: the motion of the body from the three wheel speeds. */

  // In three thousandths.
  function OdometryX(v: Target): int {
    -2 * (v[0] * Sin(At100) + v[1] * Sin(At220) + v[2] * Sin(At340))
  }

  function OdometryY(v: Target): int {
    -2 * (v[0] * Cos(At100) + v[1] * Cos(At220) + v[2] * Cos(At340))
  }

  function OdometryT(v: Target): int {
    1000 * (v[0] + v[1] + v[2])
  }

  // Wheels as near to the geometry as the rounding allows move the body as commanded, to
  // within five thirds in each component.
  predicate Moves(m: Target, x: int, y: int, t: int) {
    && Abs(OdometryX(m) - 3000 * x) <= 5000
    && Abs(OdometryY(m) - 3000 * y) <= 5000
    && Abs(OdometryT(m) - 3 * RADIUS * t) <= 5000
  }

  // The three wheel speeds as geometry and error, summed up.
  lemma RimsAlongX(x: int, y: int, t: int, d: int, e: int, f: int)
    requires -128 <= x <= 128 && -128 <= y <= 128
    requires -SLACK <= d <= SLACK && -SLACK <= e <= SLACK && -SLACK <= f <= SLACK
    ensures var a, b, c := -(x * 985) + y * 174 + 1070 * t + d, x * 643 + y * 766 + 1070 * t + e,
                           x * 342 - y * 940 + 1070 * t + f;
            -5000_000 <= -2 * (a * 985 - b * 643 - c * 342) - 3000_000 * x <= 5000_000
  {
  }

  lemma RimsAlongY(x: int, y: int, t: int, d: int, e: int, f: int)
    requires -128 <= x <= 128 && -128 <= y <= 128
    requires -SLACK <= d <= SLACK && -SLACK <= e <= SLACK && -SLACK <= f <= SLACK
    ensures var a, b, c := -(x * 985) + y * 174 + 1070 * t + d, x * 643 + y * 766 + 1070 * t + e,
                           x * 342 - y * 940 + 1070 * t + f;
            -5000_000 <= -2 * (a * -174 - b * 766 + c * 940) - 3000_000 * y <= 5000_000
  {
  }

  lemma NearRimsMove(x: int, y: int, t: int, a: int, b: int, c: int)
    requires -128 <= x <= 128 && -128 <= y <= 128
    requires -SLACK <= 1000 * a - (-(x * 985) + y * 174 + 1070 * t) <= SLACK
    requires -SLACK <= 1000 * b - (x * 643 + y * 766 + 1070 * t) <= SLACK
    requires -SLACK <= 1000 * c - (x * 342 - y * 940 + 1070 * t) <= SLACK
    ensures -5000 <= -2 * (a * 985 - b * 643 - c * 342) - 3000 * x <= 5000
    ensures -5000 <= -2 * (a * -174 - b * 766 + c * 940) - 3000 * y <= 5000
    ensures -5000 <= 1000 * (a + b + c) - 3210 * t <= 5000
  {
    var d := 1000 * a - (-(x * 985) + y * 174 + 1070 * t);
    var e := 1000 * b - (x * 643 + y * 766 + 1070 * t);
    var f := 1000 * c - (x * 342 - y * 940 + 1070 * t);
    RimsAlongX(x, y, t, d, e, f);
    RimsAlongY(x, y, t, d, e, f);
  }

  lemma MotionOf(p: Target, x: int8, y: int8, t: int8)
    requires forall w: Wheel3 :: Abs(1000 * p[Index(w)] - Rim(w, x, y, t)) <= SLACK
    ensures Moves(p, x, y, t)
  {
    var a, b, c := p[Index(At100)], p[Index(At220)], p[Index(At340)];
    assert Abs(1000 * a - Rim(At100, x, y, t)) <= SLACK;
    assert Abs(1000 * b - Rim(At220, x, y, t)) <= SLACK;
    assert Abs(1000 * c - Rim(At340, x, y, t)) <= SLACK;
    NearRimsMove(x, y, t, a, b, c);
  }

  // The same, shrunk in the proportion 100 to max; each wheel is off by less than one more.
  predicate MovesInProportion(v: Target, x: int, y: int, t: int, max: nat) {
    && Abs(OdometryX(v) * max - 300000 * x) <= 500000 + 4000 * max
    && Abs(OdometryY(v) * max - 300000 * y) <= 500000 + 4000 * max
    && Abs(OdometryT(v) * max - 300 * RADIUS * t) <= 500000 + 4000 * max
  }

  lemma NearProportion(v: int, p: int, max: nat)
    requires v == 0 || (v > 0 <==> p > 0)
    requires Abs(v) * max <= Abs(p) * 100 < Abs(v) * max + max
    ensures Abs(v * max - 100 * p) <= max
  {
    assert v < 0 ==> Abs(v) * max == -(v * max);
  }

  lemma Distributes(a: int, b: int, c: int, i: int, j: int, k: int, max: int)
    ensures (a * i + b * j + c * k) * max == a * max * i + b * max * j + c * max * k
  {
    assert a * i * max == a * max * i && b * j * max == b * max * j && c * k * max == c * max * k;
  }

  // Sums whose parts are each off by at most max.
  lemma SumAlongX(a: int, b: int, c: int, p: int, q: int, r: int, max: nat)
    requires Abs(a - 100 * p) <= max && Abs(b - 100 * q) <= max && Abs(c - 100 * r) <= max
    ensures Abs(a * -1970 + b * 1286 + c * 684 - 100 * (p * -1970 + q * 1286 + r * 684)) <= 4000 * max
  {
  }

  lemma SumAlongY(a: int, b: int, c: int, p: int, q: int, r: int, max: nat)
    requires Abs(a - 100 * p) <= max && Abs(b - 100 * q) <= max && Abs(c - 100 * r) <= max
    ensures Abs(a * 348 + b * 1532 + c * -1880 - 100 * (p * 348 + q * 1532 + r * -1880)) <= 4000 * max
  {
  }

  lemma SumOfRotation(a: int, b: int, c: int, p: int, q: int, r: int, max: nat)
    requires Abs(a - 100 * p) <= max && Abs(b - 100 * q) <= max && Abs(c - 100 * r) <= max
    ensures Abs(a * 1000 + b * 1000 + c * 1000 - 100 * (p * 1000 + q * 1000 + r * 1000)) <= 4000 * max
  {
  }

  predicate InProportion(v: Target, p: Target, max: nat) {
    && Abs(v[0] * max - 100 * p[0]) <= max && Abs(v[1] * max - 100 * p[1]) <= max
    && Abs(v[2] * max - 100 * p[2]) <= max
  }

  lemma XCoefficients(v: Target)
    ensures OdometryX(v) == v[0] * -1970 + v[1] * 1286 + v[2] * 684
  {
  }

  lemma YCoefficients(v: Target)
    ensures OdometryY(v) == v[0] * 348 + v[1] * 1532 + v[2] * -1880
  {
  }

  lemma TCoefficients(v: Target)
    ensures OdometryT(v) == v[0] * 1000 + v[1] * 1000 + v[2] * 1000
  {
  }

  lemma XInProportion(v: Target, p: Target, max: nat)
    requires InProportion(v, p, max)
    ensures Abs(OdometryX(v) * max - 100 * OdometryX(p)) <= 4000 * max
  {
    XCoefficients(v);
    XCoefficients(p);
    hide OdometryX;
    SumAlongX(v[0] * max, v[1] * max, v[2] * max, p[0], p[1], p[2], max);
    Distributes(v[0], v[1], v[2], -1970, 1286, 684, max);
  }

  lemma YInProportion(v: Target, p: Target, max: nat)
    requires InProportion(v, p, max)
    ensures Abs(OdometryY(v) * max - 100 * OdometryY(p)) <= 4000 * max
  {
    YCoefficients(v);
    YCoefficients(p);
    hide OdometryY;
    SumAlongY(v[0] * max, v[1] * max, v[2] * max, p[0], p[1], p[2], max);
    Distributes(v[0], v[1], v[2], 348, 1532, -1880, max);
  }

  lemma TInProportion(v: Target, p: Target, max: nat)
    requires InProportion(v, p, max)
    ensures Abs(OdometryT(v) * max - 100 * OdometryT(p)) <= 4000 * max
  {
    TCoefficients(v);
    TCoefficients(p);
    hide OdometryT;
    SumOfRotation(v[0] * max, v[1] * max, v[2] * max, p[0], p[1], p[2], max);
    Distributes(v[0], v[1], v[2], 1000, 1000, 1000, max);
  }

  lemma BothErrors(scaled: int, o: int, ideal: int, max: nat)
    requires Abs(o - ideal) <= 5000 && Abs(scaled - 100 * o) <= 4000 * max
    ensures Abs(scaled - 100 * ideal) <= 500000 + 4000 * max
  {
  }

  lemma ScaledX(v: Target, p: Target, ideal: int, max: nat)
    requires InProportion(v, p, max) && Abs(OdometryX(p) - ideal) <= 5000
    ensures Abs(OdometryX(v) * max - 100 * ideal) <= 500000 + 4000 * max
  {
    XInProportion(v, p, max);
    hide InProportion, OdometryX;
    BothErrors(OdometryX(v) * max, OdometryX(p), ideal, max);
  }

  lemma ScaledY(v: Target, p: Target, ideal: int, max: nat)
    requires InProportion(v, p, max) && Abs(OdometryY(p) - ideal) <= 5000
    ensures Abs(OdometryY(v) * max - 100 * ideal) <= 500000 + 4000 * max
  {
    YInProportion(v, p, max);
    hide InProportion, OdometryY;
    BothErrors(OdometryY(v) * max, OdometryY(p), ideal, max);
  }

  lemma ScaledTheta(v: Target, p: Target, ideal: int, max: nat)
    requires InProportion(v, p, max) && Abs(OdometryT(p) - ideal) <= 5000
    ensures Abs(OdometryT(v) * max - 100 * ideal) <= 500000 + 4000 * max
  {
    TInProportion(v, p, max);
    hide InProportion, OdometryT;
    BothErrors(OdometryT(v) * max, OdometryT(p), ideal, max);
  }

  lemma ScaledMotionOf(v: Target, p: Target, x: int, y: int, t: int, max: nat)
    requires Moves(p, x, y, t) && InProportion(v, p, max)
    ensures MovesInProportion(v, x, y, t, max)
  {
    hide InProportion, OdometryX, OdometryY, OdometryT, Abs;
    ScaledX(v, p, 3000 * x, max);
    ScaledY(v, p, 3000 * y, max);
    ScaledTheta(v, p, 3 * RADIUS * t, max);
  }

  // Every body velocity moves the body so: as commanded, or, if the fastest wheel would have
  // to exceed 100, in the same direction and proportion as far as that wheel allows.
  lemma MovesAsCommanded(x: int8, y: int8, t: int8) returns (max: nat)
    ensures forall w: Wheel3 :: Abs(Rim(w, x, y, t)) <= 1000 * max + SLACK
    ensures exists w: Wheel3 :: Abs(Rim(w, x, y, t)) >= 1000 * max - SLACK
    ensures max <= 100 ==> Moves(XyTheta(x, y, t), x, y, t)
    ensures max > 100 ==> MovesInProportion(XyTheta(x, y, t), x, y, t, max)
  {
    hide XyTheta, Moves, MovesInProportion, Rim, InProportion;
    var p := TargetsFollowGeometry(x, y, t);
    max := Max3(Abs(p[0]), Abs(p[1]), Abs(p[2]));
    MotionOf(p, x, y, t);
    FastestWheel(p, x, y, t);
    var v := XyTheta(x, y, t);
    if max > 100 {
      NearInProportion(v, p, max);
      hide *;
      ScaledMotionOf(v, p, x, y, t, max);
    }
  }

  lemma NearInProportion(v: Target, p: Target, max: nat)
    requires forall i | 0 <= i < 3 ::
               (v[i] == 0 || (v[i] > 0 <==> p[i] > 0)) && Abs(v[i]) * max <= Abs(p[i]) * 100 < Abs(v[i]) * max + max
    ensures InProportion(v, p, max)
  {
    NearProportion(v[0], p[0], max);
    NearProportion(v[1], p[1], max);
    NearProportion(v[2], p[2], max);
  }

  lemma FastestWheel(p: Target, x: int, y: int, t: int)
    requires forall w: Wheel3 :: Abs(1000 * p[Index(w)] - Rim(w, x, y, t)) <= SLACK
    ensures var max := Max3(Abs(p[0]), Abs(p[1]), Abs(p[2]));
            && (forall w: Wheel3 :: Abs(Rim(w, x, y, t)) <= 1000 * max + SLACK)
            && (exists w: Wheel3 :: Abs(Rim(w, x, y, t)) >= 1000 * max - SLACK)
  {
    hide Rim;
    var max := Max3(Abs(p[0]), Abs(p[1]), Abs(p[2]));
    assert Index(At100) == 0 && Index(At220) == 1 && Index(At340) == 2;
    assert Abs(1000 * p[0] - Rim(At100, x, y, t)) <= SLACK;
    assert Abs(1000 * p[1] - Rim(At220, x, y, t)) <= SLACK;
    assert Abs(1000 * p[2] - Rim(At340, x, y, t)) <= SLACK;
    var w := if max == Abs(p[0]) then At100 else if max == Abs(p[1]) then At220 else At340;
    assert Abs(Rim(w, x, y, t)) >= 1000 * max - SLACK;
  }

  /* Plain motions. */

  lemma ScaledOrder(a: int, b: int, max: int)
    requires 0 <= a <= b && max > 0
    ensures 0 <= TruncDiv(a * MAX_SPEED, max) <= TruncDiv(b * MAX_SPEED, max)
  {
    QuotientBounds(a * MAX_SPEED, max);
    QuotientBounds(b * MAX_SPEED, max);
    var p, q := a * MAX_SPEED / max, b * MAX_SPEED / max;
    if q < p {
      Multiples(q, p, max);
    }
  }

  // Turning on the spot drives all three wheels alike, and no slower than the rim demands.
  lemma RotationIsEven(t: int8)
    ensures var v := XyTheta(0, 0, t);
            && v[0] == v[1] == v[2]
            && (t >= 0 ==> v[0] >= if t < 100 then t else 100)
            && (t <= 0 ==> v[0] <= if t > -100 then t else -100)
  {
    var m := Trunc1024(t * 1096);
    assert Project(0, 0, t) == [m, m, m];
    TruncationError(t * 1096);
    hide Project, Trunc1024;
    if Abs(m) > MAX_SPEED {
      ScaledWheel(m, Abs(m));
    }
    hide TruncDiv;
  }

  // Straight along x drives wheel 100 one way and the others the other way, 220 the faster.
  lemma StraightAlongX(x: int8)
    requires x >= 2
    ensures var v := XyTheta(x, 0, 0); v[0] < 0 <= v[2] <= v[1]
  {
    var a, b, c := Trunc1024(x * -1008), Trunc1024(x * 658), Trunc1024(x * 350);
    assert Project(x, 0, 0) == [a, b, c];
    assert a < 0 <= c <= b && b <= -a;
    OneWayAndOther(XyTheta(x, 0, 0), a, c, b, -a);
  }

  // Straight along y drives wheel 340 one way and the others the other way, 220 the faster.
  lemma StraightAlongY(y: int8)
    requires y >= 2
    ensures var v := XyTheta(0, y, 0); v[2] < 0 <= v[0] <= v[1]
  {
    var a, b, c := Trunc1024(y * 178), Trunc1024(y * 784), Trunc1024(y * -962);
    assert Project(0, y, 0) == [a, b, c];
    assert c < 0 <= a <= b && b <= -c;
    OneWayAndOther(XyTheta(0, y, 0), c, a, b, -c);
  }

  // The fastest wheel against the other two keeps its sign, they their order.
  lemma OneWayAndOther(v: Target, fast: int, low: int, high: int, max: int)
    requires fast == -max < 0 <= low <= high <= max
    ensures max > MAX_SPEED ==>
              TruncDiv(fast * MAX_SPEED, max) < 0 <= TruncDiv(low * MAX_SPEED, max) <= TruncDiv(high * MAX_SPEED, max)
  {
    ScaledOrder(low, high, max);
    if max > MAX_SPEED {
      ScaledWheel(fast, max);
    }
  }
}
