/**
  The wheel controller's PID over whole runs: in the widths of the processor, against the
  controller as intended, on integers that cannot overflow.
*/
module PidRuns {
  import opened Words
  import opened WheelControl
  import HBridge

  datatype Pid = Pid(error: int, iError: int)

  const AT_REST := Pid(0, 0)

  // A tick that reaches the PID: the limited setpoint, and the clicks counted.
  datatype PidTick = PidTick(setpoint: int8, clicks: int16)

  /* As the processor computes it. */

  function WordNext(p: Pid, t: PidTick): Pid {
    if PidIgnores(t.setpoint) then p else
      var e := PidError(t.setpoint, t.clicks);
      Pid(e, Integrated(p.iError, e))
  }

  function WordCommand(p: Pid, t: PidTick): int {
    if PidIgnores(t.setpoint) then 0 else
      var n := WordNext(p, t);
      PidCommand(n.error, ToInt16(p.error), n.iError)
  }

  function WordCommands(p: Pid, ticks: seq<PidTick>): (cs: seq<int>)
    ensures |cs| == |ticks|
    decreases |ticks|
  {
    if ticks == [] then [] else [WordCommand(p, ticks[0])] + WordCommands(WordNext(p, ticks[0]), ticks[1..])
  }

  /* As intended. */

  function Next(p: Pid, t: PidTick): Pid {
    if PidIgnores(t.setpoint) then p else
      var e := 4 * Bound(t.setpoint, SPEED_LIMIT) - t.clicks;
      Pid(e, Integrated(p.iError, e))
  }

  function Command(p: Pid, t: PidTick): int {
    if PidIgnores(t.setpoint) then 0 else
      var sum := PidSum(Bound(t.setpoint, SPEED_LIMIT), t.clicks, p.error, Next(p, t).iError);
      Bound(sum, MAX_FIXED_POINT_OUTPUT) / 64
  }

  function Commands(p: Pid, ticks: seq<PidTick>): (cs: seq<int>)
    ensures |cs| == |ticks|
    decreases |ticks|
  {
    if ticks == [] then [] else [Command(p, ticks[0])] + Commands(Next(p, ticks[0]), ticks[1..])
  }

  // The law in numbers: a speed is four clicks a tick, 25 the fastest; the integral loses a
  // 64th and gains the error; and the drive is the sum of the three terms, a 64th of it, as
  // far as it goes.  Setpoints of 0 and beyond 100 are not for it.
  ghost predicate Law(p: Pid, t: PidTick, n: Pid, command: int) {
    var goal := if t.setpoint > 25 then 25 else if t.setpoint < -25 then -25 else t.setpoint;
    if t.setpoint == 0 || t.setpoint > 100 || t.setpoint < -100 then n == p && command == 0
    else
      && n.error == 4 * goal - t.clicks
      && (exists kept: int :: LosesA64th(p.iError, kept)
                           && n.iError == if kept + n.error > 1000 then 1000 else if kept + n.error < -1000 then -1000
                                          else kept + n.error)
      && (var sum := 8 * n.error + 8 * n.iError + 16 * (n.error - p.error);
          if sum >= 8128 then command == 127 else if sum <= -8128 then command == -127
          else 64 * command <= sum < 64 * command + 64)
  }

  predicate LosesA64th(i: int, kept: int) {
    if i >= 0 then 63 * i - 64 < 64 * kept <= 63 * i else 63 * i <= 64 * kept < 63 * i + 64
  }

  lemma FollowsLaw(p: Pid, t: PidTick)
    ensures Law(p, t, Next(p, t), Command(p, t))
  {
    Decay(p.iError);
    assert LosesA64th(p.iError, TruncDiv(p.iError * 63, 64));
    hide TruncDiv, LosesA64th;
  }

  // From rest, a wheel that does not move yet gets twice the speed asked for.
  lemma FirstCommand(t: PidTick)
    requires t.clicks == 0 && -25 <= t.setpoint <= 25
    ensures Command(AT_REST, t) == 2 * t.setpoint
  {
    hide Command, Next, Integrated;
    FollowsLaw(AT_REST, t);
  }

  function After(p: Pid, ticks: seq<PidTick>): Pid
    decreases |ticks|
  {
    if ticks == [] then p else Next(After(p, ticks[..|ticks| - 1]), ticks[|ticks| - 1])
  }

  // While the wheel makes just its speed the integral fades by at least one with every tick.
  lemma {:induction false} IntegralFades(p: Pid, ticks: seq<PidTick>)
    requires forall t | t in ticks :: 1 <= Abs(t.setpoint) <= 25 && t.clicks == 4 * t.setpoint
    ensures var i := After(p, ticks).iError;
            && Abs(i) <= (if Abs(p.iError) > |ticks| then Abs(p.iError) - |ticks| else 0)
            && (p.iError >= 0 ==> i >= 0) && (p.iError <= 0 ==> i <= 0)
    decreases |ticks|
  {
    hide Next;
    if ticks != [] {
      var n := |ticks| - 1;
      IntegralFades(p, ticks[..n]);
      var q := After(p, ticks[..n]);
      FollowsLaw(q, ticks[n]);
      var kept: int :| LosesA64th(q.iError, kept)
                    && Next(q, ticks[n]).iError == if kept > 1000 then 1000 else if kept < -1000 then -1000 else kept;
    }
  }

  /* Where they agree. */

  const SLOW := 523

  // What error and integral can be together, while the wheel is that slow.
  predicate Kept(p: Pid) {
    && Abs(p.error) <= SLOW + 100 && Abs(p.iError) <= I_ERROR_MAX
    && p.error - 984 <= p.iError <= p.error + 984
  }

  lemma Decay(i: int)
    ensures i >= 0 ==> 63 * i - 63 <= 64 * TruncDiv(i * 63, 64) <= 63 * i
    ensures i <= 0 ==> 63 * i <= 64 * TruncDiv(i * 63, 64) <= 63 * i + 63
  {
  }

  lemma IntegralKept(p: Pid, e: int)
    requires Kept(p) && Abs(e) <= SLOW + 100
    ensures Kept(Pid(e, Integrated(p.iError, e)))
    ensures Abs(8 * e + 8 * Integrated(p.iError, e) + 16 * (e - p.error)) < 0x8000
  {
    Decay(p.iError);
    hide TruncDiv;
  }

  // The integral cannot be large of one sign right after a large error of the other: so no
  // term of the sum overflows, nor does the sum.
  lemma TickAgrees(p: Pid, t: PidTick)
    requires Kept(p) && Abs(t.clicks) <= SLOW
    ensures WordNext(p, t) == Next(p, t) && WordCommand(p, t) == Command(p, t) && Kept(Next(p, t))
  {
    hide ToInt16, Integrated;
    if !PidIgnores(t.setpoint) {
      var e := 4 * Bound(t.setpoint, SPEED_LIMIT) - t.clicks;
      IntegralKept(p, e);
      Int16Fits(e);
      Int16Fits(p.error);
      Int16Fits(e - p.error);
      Int16Fits(e * KPS);
      Int16Fits((e - p.error) * KDS);
      Int16Fits(e * KPS + Integrated(p.iError, e) * KIS + (e - p.error) * KDS);
    }
  }

  lemma {:induction false} RunAgrees(p: Pid, ticks: seq<PidTick>)
    requires Kept(p) && forall t | t in ticks :: Abs(t.clicks) <= SLOW
    ensures WordCommands(p, ticks) == Commands(p, ticks)
    decreases |ticks|
  {
    hide Kept, WordNext, WordCommand, Next, Command;
    if ticks != [] {
      TickAgrees(p, ticks[0]);
      RunAgrees(Next(p, ticks[0]), ticks[1..]);
    }
  }

  /* Where they do not. */

  // The integral is driven to its bound, and the error then thrown from one side to the
  // other: full drive one way, where full drive the other way was meant.
  const TOO_FAST: seq<PidTick> :=
    [PidTick(25, -524), PidTick(25, -524), PidTick(-25, 524), PidTick(25, -524)]

  lemma TooFastStates()
    ensures WordNext(AT_REST, PidTick(25, -524)) == Next(AT_REST, PidTick(25, -524)) == Pid(624, 624)
    ensures WordNext(Pid(624, 624), PidTick(25, -524)) == Next(Pid(624, 624), PidTick(25, -524)) == Pid(624, 1000)
    ensures WordNext(Pid(624, 1000), PidTick(-25, 524)) == Next(Pid(624, 1000), PidTick(-25, 524)) == Pid(-624, 360)
  {
  }

  lemma TooFastCommands()
    ensures WordCommand(Pid(-624, 360), PidTick(25, -524)) == -127
    ensures Command(Pid(-624, 360), PidTick(25, -524)) == 127
  {
    var p, t := Pid(-624, 360), PidTick(25, -524);
    assert WordNext(p, t) == Pid(624, 978) == Next(p, t);
    TooFastSum();
    hide WordSum, WordNext, Next;
  }

  lemma TooFastSum()
    ensures ToInt16(-624) == -624 && ToInt16(624 - -624) == 1248
    ensures WordSum(624, 978, 1248) == -32752
  {
    assert ToInt16(624 * KPS) == 4992 && ToInt16(1248 * KDS) == 19968;
    assert 4992 + 978 * KIS + 19968 == 32784;
    assert ToInt16(32784) == -32752;
  }

  lemma TooFastDisagrees()
    ensures WordCommands(AT_REST, TOO_FAST)[3] == -127 && Commands(AT_REST, TOO_FAST)[3] == 127
  {
    TooFastStates();
    TooFastCommands();
    hide WordNext, WordCommand, Next, Command;
    var t := TOO_FAST;
    LastOfFour(AT_REST, t);
    assert t[1..][1..] == t[2..] && t[2..][1..] == t[3..];
  }

  lemma LastOfFour(p: Pid, t: seq<PidTick>)
    requires |t| == 4
    ensures WordCommands(p, t)[3] == WordCommand(WordNext(WordNext(WordNext(p, t[0]), t[1]), t[2]), t[3])
    ensures Commands(p, t)[3] == Command(Next(Next(Next(p, t[0]), t[1]), t[2]), t[3])
  {
    hide WordNext, WordCommand, Next, Command;
    assert t[1..][1..] == t[2..] && t[2..][1..] == t[3..];
    var a, b := WordNext(p, t[0]), Next(p, t[0]);
    assert WordCommands(p, t)[3] == WordCommands(a, t[1..])[2] && Commands(p, t)[3] == Commands(b, t[1..])[2];
    var c, d := WordNext(a, t[1]), Next(b, t[1]);
    assert WordCommands(a, t[1..])[2] == WordCommands(c, t[2..])[1];
    assert Commands(b, t[1..])[2] == Commands(d, t[2..])[1];
    assert WordCommands(c, t[2..])[1] == WordCommands(WordNext(c, t[2]), t[3..])[0];
    assert Commands(d, t[2..])[1] == Commands(Next(d, t[2]), t[3..])[0];
  }

  // From power-up on the controller is the intended one in every run of a wheel that makes no
  // more than so many clicks a tick, if and only if these are no more than 523.
  lemma IntendedIff(most: nat)
    ensures (forall ticks: seq<PidTick> ::
               (forall t | t in ticks :: Abs(t.clicks) <= most) ==>
                 WordCommands(AT_REST, ticks) == Commands(AT_REST, ticks))
       <==> most <= SLOW
  {
    hide WordCommands, Commands;
    if most <= SLOW {
      forall ticks: seq<PidTick> | forall t | t in ticks :: Abs(t.clicks) <= most
        ensures WordCommands(AT_REST, ticks) == Commands(AT_REST, ticks)
      {
        RunAgrees(AT_REST, ticks);
      }
    } else {
      TooFastDisagrees();
      assert forall t | t in TOO_FAST :: Abs(t.clicks) <= most;
      assert WordCommands(AT_REST, TOO_FAST) != Commands(AT_REST, TOO_FAST);
    }
  }

  /* The controller itself. */

  function WordAfter(p: Pid, ticks: seq<PidTick>): Pid
    decreases |ticks|
  {
    if ticks == [] then p else WordAfter(WordNext(p, ticks[0]), ticks[1..])
  }

  lemma {:induction false} OneTickMore(p: Pid, ticks: seq<PidTick>, t: PidTick)
    ensures WordAfter(p, ticks + [t]) == WordNext(WordAfter(p, ticks), t)
    ensures WordCommands(p, ticks + [t]) == WordCommands(p, ticks) + [WordCommand(WordAfter(p, ticks), t)]
    decreases |ticks|
  {
    hide WordNext, WordCommand;
    if ticks == [] {
      assert [t][1..] == [];
    } else {
      assert (ticks + [t])[1..] == ticks[1..] + [t];
      OneTickMore(WordNext(p, ticks[0]), ticks[1..], t);
    }
  }

  // The controller from power-up, through any activity: the commands of all turns that go
  // through the PID, and what that got to see.
  method Drive(c: Controller, acts: seq<Activity>) returns (ghost ticks: seq<PidTick>, ghost commands: seq<int>)
    requires c.Valid() && c.error == 0 && c.iError == 0
    modifies c, c.bridge
    ensures c.Valid() && commands == WordCommands(AT_REST, ticks)
    ensures Pid(c.error, c.iError) == WordAfter(AT_REST, ticks)
    ensures (forall a | a in acts && a.Turn? :: Abs(a.sensors.clicks) <= SLOW) ==> commands == Commands(AT_REST, ticks)
  {
    hide HBridge.BridgeDriver.Valid, HBridge.BridgeDriver.Regs, Controller.Watched, LimitedSetpoint, MaxVolt;
    hide Corrected, ToInt8, WordCommands, WordNext, WordCommand, Commands;
    ticks, commands := [], [];
    NoTicks();
    var i := 0;
    while i < |acts|
      invariant 0 <= i <= |acts| && c.Valid()
      invariant commands == WordCommands(AT_REST, ticks)
      invariant Pid(c.error, c.iError) == WordAfter(AT_REST, ticks)
      invariant (forall a | a in acts && a.Turn? :: Abs(a.sensors.clicks) <= SLOW) ==>
                  forall t | t in ticks :: Abs(t.clicks) <= SLOW
    {
      match acts[i] {
        case Turn(sensors) =>
          assert acts[i] in acts;
          ghost var before, correction := Pid(c.error, c.iError), c.correction;
          var used, command := c.ControlTick(sensors);
          if !c.pwmMode {
            ghost var t := PidTick(LimitedSetpoint(used, correction, sensors.current > I_LIMIT), sensors.clicks);
            PidTurn(before, t, command, Pid(c.error, c.iError));
            OneTickMore(AT_REST, ticks, t);
            ticks, commands := ticks + [t], commands + [command];
          }
        case Byte(b, sensors) =>
          var reply := c.SpiByte(b, sensors);
      }
      i := i + 1;
    }
    if forall a | a in acts && a.Turn? :: Abs(a.sensors.clicks) <= SLOW {
      RunAgrees(AT_REST, ticks);
    }
  }

  lemma NoTicks()
    ensures WordCommands(AT_REST, []) == [] && WordAfter(AT_REST, []) == AT_REST
  {
  }

  // One turn's contract, in these terms.
  lemma PidTurn(p: Pid, t: PidTick, command: int, n: Pid)
    requires -0x8000 <= p.error < 0x8000 && -0x8000 <= n.error < 0x8000
    requires if PidIgnores(t.setpoint) then command == 0 && n == p
             else
               && n.error == PidError(t.setpoint, t.clicks) && n.iError == Integrated(p.iError, n.error)
               && command == PidCommand(n.error, p.error, n.iError)
    ensures n == WordNext(p, t) && command == WordCommand(p, t)
  {
    hide PidError, Integrated, PidCommand;
    Int16Fits(p.error);
  }
}
