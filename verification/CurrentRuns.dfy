/**
  The overcurrent limit over runs: how a setpoint is weakened, tick by tick, and comes back.
*/
module CurrentRuns {
  import opened Words
  import opened WheelControl
  import HBridge

  // What is taken off a setpoint of magnitude m: one more with every tick of overcurrent, up
  // to all but one, and one less with every other tick.
  function TakenOff(m: nat, over: seq<bool>): (r: nat)
    requires m > 0
    ensures r < m
  {
    if over == [] then 0
    else
      var before := TakenOff(m, over[..|over| - 1]);
      if !over[|over| - 1] then (if before > 0 then before - 1 else 0)
      else if before + 1 < m then before + 1 else before
  }

  // After n ticks of overcurrent max(1, m - n) is left.
  lemma {:induction false} Weakens(m: nat, over: seq<bool>)
    requires m > 0 && forall i | 0 <= i < |over| :: over[i]
    ensures m - TakenOff(m, over) == if |over| < m then m - |over| else 1
    decreases |over|
  {
    if over != [] {
      Weakens(m, over[..|over| - 1]);
    }
  }

  // After k ticks without, it has come back by k, up to m.
  lemma {:induction false} ComesBack(m: nat, over: seq<bool>, calm: seq<bool>)
    requires m > 0 && forall i | 0 <= i < |calm| :: !calm[i]
    ensures var left := m - TakenOff(m, over);
            m - TakenOff(m, over + calm) == if left + |calm| < m then left + |calm| else m
    decreases |calm|
  {
    if calm == [] {
      assert over + calm == over;
    } else {
      var n := |calm| - 1;
      assert (over + calm)[..|over| + n] == over + calm[..n];
      ComesBack(m, over, calm[..n]);
    }
  }

  lemma OneTurn(sp: int8, taken: int8, over: bool)
    requires sp != 0 && sp != -128 && 0 <= taken < Abs(sp)
    ensures var m := Abs(sp);
            var now := if !over then (if taken > 0 then taken - 1 else 0) else if taken + 1 < m then taken + 1 else taken;
            && Corrected(taken, ToInt8(m), over) == now
            && LimitedSetpoint(sp, taken, over) == if sp > 0 then m - now else now - m
  {
    hide ToInt8;
    var m := Abs(sp);
    Int8Fits(m);
    Int8Fits(taken + 1);
    Int8Fits(m - 1);
    CorrectedRange(taken, m, over);
    var c := Corrected(taken, m, over);
    Int8Fits(m - c);
    Int8Fits(c - m);
  }

  function Overcurrent(sensors: seq<Sensors>): (over: seq<bool>)
    ensures |over| == |sensors| && forall k | 0 <= k < |sensors| :: over[k] <==> sensors[k].current > 30
  {
    seq(|sensors|, k requires 0 <= k < |sensors| => sensors[k].current > 30)
  }

  // What is left of a setpoint, in its direction, after so many ticks.
  function Left(sp: int8, sensors: seq<Sensors>): int
    requires sp != 0
  {
    var rest := Abs(sp) - TakenOff(Abs(sp), Overcurrent(sensors));
    if sp > 0 then rest else -rest
  }

  // What a tick makes of that: a bounded drive, or a speed for the PID, which ignores what is
  // beyond 100.
  predicate ActsOn(left: int, pwm: bool, command: int, error: int, clicks: int) {
    && (pwm ==> command == if left > 100 then 100 else if left < -100 then -100 else left)
    && (!pwm && Abs(left) > 100 ==> command == 0)
    && (!pwm && Abs(left) <= 100 ==>
          ToInt16(error) == ToInt16(4 * (if left > 25 then 25 else if left < -25 then -25 else left) - clicks))
  }

  // Every tick of the controller acts on what is left of an unchanged setpoint, so long as
  // the watchdog does not take it away.
  method Hold(c: Controller, sensors: seq<Sensors>) returns (commands: seq<int8>, ghost errors: seq<int16>)
    requires c.Valid() && c.correction == 0 && c.setpoint != 0 && c.setpoint != -128
    requires c.eventCount + |sensors| <= COMMAND_TIMEOUT + 1
    modifies c, c.bridge
    ensures c.Valid() && c.setpoint == old(c.setpoint) && c.pwmMode == old(c.pwmMode)
    ensures c.Limits() == LimitsAfter(old(c.Limits()), c.setpoint, sensors, c.vNow) && c.vNow == old(c.vNow)
    ensures |commands| == |sensors| == |errors|
    ensures forall k | 0 <= k < |sensors| ::
              ActsOn(Left(c.setpoint, sensors[..k + 1]), c.pwmMode, commands[k], errors[k], sensors[k].clicks)
  {
    hide HBridge.BridgeDriver.Valid, HBridge.BridgeDriver.Regs, Controller.Watched, LimitedSetpoint, MaxVolt;
    hide Corrected, ToInt8, TakenOff, Relimited, LimitsAfter, PidCommand, Integrated, ActsOn, HBridge.Limited;
    ghost var sp, m, l, vNow := c.setpoint, Abs(c.setpoint), c.Limits(), c.vNow;
    commands, errors := [], [];
    var i := 0;
    NothingTakenOff(m);
    NoTick(l, sp, vNow);
    assert sensors[..0] == [];
    assert Overcurrent(sensors[..0]) == [];
    while i < |sensors|
      invariant 0 <= i <= |sensors| && c.Valid() && c.setpoint == sp && c.pwmMode == old(c.pwmMode)
      invariant c.eventCount == old(c.eventCount) + i
      invariant c.vNow == vNow && c.Limits() == LimitsAfter(l, sp, sensors[..i], vNow)
      invariant |commands| == i == |errors| && c.correction == TakenOff(m, Overcurrent(sensors[..i]))
      invariant forall k | 0 <= k < i ::
                  ActsOn(Left(sp, sensors[..k + 1]), c.pwmMode, commands[k], errors[k], sensors[k].clicks)
    {
      ghost var taken, over := c.correction, sensors[i].current > I_LIMIT;
      OneTurn(sp, taken, over);
      OneTickMore(m, sensors, i);
      NextLimits(l, sp, sensors, i, vNow);
      var used, command := c.ControlTick(sensors[i]);
      TurnActs(LimitedSetpoint(sp, taken, over), c.pwmMode, command, c.error, sensors[i].clicks);
      commands, errors := commands + [command], errors + [c.error];
      i := i + 1;
    }
    assert sensors[..i] == sensors;
  }

  lemma NoTick(l: Limiter, sp: int8, vNow: uint8)
    requires l.Valid()
    ensures LimitsAfter(l, sp, [], vNow) == l
  {
  }

  lemma NextLimits(l: Limiter, sp: int8, sensors: seq<Sensors>, i: nat, vNow: uint8)
    requires l.Valid() && i < |sensors|
    ensures LimitsAfter(l, sp, sensors[..i + 1], vNow) == Ticked(LimitsAfter(l, sp, sensors[..i], vNow), sp, sensors[i], vNow)
  {
    assert sensors[..i + 1][..i] == sensors[..i];
  }

  lemma NothingTakenOff(m: nat)
    requires m > 0
    ensures TakenOff(m, []) == 0
  {
  }

  lemma OneTickMore(m: nat, sensors: seq<Sensors>, i: nat)
    requires m > 0 && i < |sensors|
    ensures var before := TakenOff(m, Overcurrent(sensors[..i]));
            var now := TakenOff(m, Overcurrent(sensors[..i + 1]));
            if sensors[i].current <= 30 then now == (if before > 0 then before - 1 else 0)
            else now == (if before + 1 < m then before + 1 else before)
  {
    var all := Overcurrent(sensors[..i + 1]);
    assert all[..i] == Overcurrent(sensors[..i]);
  }

  lemma TurnActs(left: int8, pwm: bool, command: int8, error: int16, clicks: int16)
    requires pwm ==> command == if left > 100 then 100 else if left < -100 then -100 else left
    requires !pwm && PidIgnores(left) ==> command == 0
    requires !pwm && !PidIgnores(left) ==> error == PidError(left, clicks)
    requires left != 0
    ensures ActsOn(left, pwm, command, error, clicks)
  {
    hide ToInt16;
    Int16Fits(error);
  }

  /* The voltage limit. */

  // What the bus voltage allows: everything up to 12.0 V, less by three quarters of what is
  // above that, nothing above 18.5 V, and never more at a higher voltage.
  lemma BusLimit(vNow: uint8, lower: uint8)
    requires lower <= vNow
    ensures vNow <= 120 ==> MaxVolt(vNow) == 127
    ensures vNow > 185 ==> MaxVolt(vNow) == 0
    ensures 120 < vNow <= 185 ==> 0 <= 4 * (MaxVolt(vNow) - 127) + 3 * (vNow - 120) < 4
    ensures MaxVolt(vNow) <= MaxVolt(lower)
  {
  }

  // The limits after a run of ticks with one setpoint and bus voltage.
  function LimitsAfter(l: Limiter, setpoint: int8, sensors: seq<Sensors>, vNow: uint8): (r: Limiter)
    requires l.Valid()
    ensures r.Valid()
    decreases |sensors|
  {
    if sensors == [] then l
    else
      var before := LimitsAfter(l, setpoint, sensors[..|sensors| - 1], vNow);
      TickedValid(before, setpoint, sensors[|sensors| - 1], vNow);
      Ticked(before, setpoint, sensors[|sensors| - 1], vNow)
  }

  lemma TickedValid(l: Limiter, setpoint: int8, s: Sensors, vNow: uint8)
    requires l.Valid()
    ensures Ticked(l, setpoint, s, vNow).Valid()
  {
    hide ToInt8, MaxVolt;
    BusLimit(vNow, vNow);
    Int8Fits(l.correction + 1);
    Int8Fits(ToInt8(Abs(setpoint)) - 1);
  }

  // One tick's limits, in numbers.
  predicate Moves(l: Limiter, setpoint: int, s: Sensors, allowed: int, t: Limiter) {
    && t.inLimit == (if setpoint == 0 then l.inLimit else if s.clicks != 0 then Least(0, l.inLimit - 1)
                     else Most(255, l.inLimit + 1))
    && (if t.inLimit == 0 || s.current <= 2 then
          t.count == l.count && t.voltageLimit == Most(allowed, Most(127, l.voltageLimit + 1))
        else if l.count < 5 then
          t.count == l.count + 1 && t.voltageLimit == Most(allowed, l.voltageLimit)
        else
          t.count == 0 && t.voltageLimit == Most(allowed, if l.voltageLimit > 1 then l.voltageLimit - 1 else l.voltageLimit))
  }

  function Least(bound: int, x: int): int {
    if x < bound then bound else x
  }

  function Most(bound: int, x: int): int {
    if x > bound then bound else x
  }

  lemma TickMoves(l: Limiter, setpoint: int8, s: Sensors, vNow: uint8)
    requires l.Valid()
    ensures Moves(l, setpoint, s, MaxVolt(vNow), Ticked(l, setpoint, s, vNow))
  {
    hide ToInt8, MaxVolt, Corrected;
    BusLimit(vNow, vNow);
  }

  // Of a stalled motor that draws current, the limit falls by one with every sixth tick, but
  // not below 1.
  lemma {:induction false} StallWeakens(l: Limiter, setpoint: int8, sensors: seq<Sensors>, vNow: uint8)
    requires l.Valid() && setpoint != 0 && 1 <= l.voltageLimit <= MaxVolt(vNow)
    requires forall k | 0 <= k < |sensors| :: sensors[k].clicks == 0 && sensors[k].current > 2
    ensures var t, n := LimitsAfter(l, setpoint, sensors, vNow), l.count + |sensors|;
            && t.inLimit == Most(255, l.inLimit + |sensors|)
            && t.voltageLimit == Least(1, l.voltageLimit - n / 6) && t.count == n % 6
    decreases |sensors|
  {
    hide Ticked, MaxVolt;
    if sensors != [] {
      var n := |sensors| - 1;
      StallWeakens(l, setpoint, sensors[..n], vNow);
      TickMoves(LimitsAfter(l, setpoint, sensors[..n], vNow), setpoint, sensors[n], vNow);
    }
  }

  // With next to no current it recovers by one with every tick, up to what the bus allows.
  lemma {:induction false} LimitRecovers(l: Limiter, setpoint: int8, sensors: seq<Sensors>, vNow: uint8)
    requires l.Valid() && l.voltageLimit <= MaxVolt(vNow)
    requires forall k | 0 <= k < |sensors| :: sensors[k].current <= 2
    ensures LimitsAfter(l, setpoint, sensors, vNow).voltageLimit == Most(MaxVolt(vNow), l.voltageLimit + |sensors|)
    decreases |sensors|
  {
    hide Ticked, MaxVolt;
    BusLimit(vNow, vNow);
    if sensors != [] {
      var n := |sensors| - 1;
      LimitRecovers(l, setpoint, sensors[..n], vNow);
      TickMoves(LimitsAfter(l, setpoint, sensors[..n], vNow), setpoint, sensors[n], vNow);
    }
  }

  // So it does once the wheel has turned for as many ticks as it stood still.
  lemma {:induction false} TurningRecovers(l: Limiter, setpoint: int8, sensors: seq<Sensors>, vNow: uint8)
    requires l.Valid() && setpoint != 0 && l.voltageLimit <= MaxVolt(vNow)
    requires forall k | 0 <= k < |sensors| :: sensors[k].clicks != 0
    ensures var t, n := LimitsAfter(l, setpoint, sensors, vNow), |sensors| - l.inLimit;
            && t.inLimit == Least(0, -n)
            && t.voltageLimit <= MaxVolt(vNow)
            && (n >= 0 ==> t.voltageLimit >= Most(MaxVolt(vNow), n))
    decreases |sensors|
  {
    hide Ticked, MaxVolt;
    BusLimit(vNow, vNow);
    if sensors != [] {
      var n := |sensors| - 1;
      TurningRecovers(l, setpoint, sensors[..n], vNow);
      TickMoves(LimitsAfter(l, setpoint, sensors[..n], vNow), setpoint, sensors[n], vNow);
    }
  }
}
