/**
  What each drive command comes to, wheel by wheel, and how long it lasts.
*/
module DriveCommands {
  import opened Words
  import opened Slew
  import opened SlewRuns

  // The speed asked for, as far as a wheel goes.
  predicate Capped(s: int, asked: int) {
    && (-100 <= asked <= 100 ==> s == asked) && (asked > 100 ==> s == 100) && (asked < -100 ==> s == -100)
  }

  /* The ramp. */

  // On the straight line between two speeds, rounded down: by no more than one.
  predicate OnLine(s: int, from: int, to: int, steps: int, k: int) {
    -steps <= (s - from) * steps - k * (to - from) <= 0
  }

  lemma ProductAtMost(a: nat, b: nat, c: nat, d: nat)
    requires a <= c && b <= d
    ensures 0 <= a * b <= c * d
  {
    assert (c - a) * b >= 0;
    assert c * (d - b) >= 0;
  }

  lemma SmallProduct(k: nat, n: nat, r: int)
    requires k <= n <= 200 && Abs(r) < n
    ensures -40000 < k * r < 40000
  {
    ProductAtMost(k, Abs(r), 200, 199);
    assert r < 0 ==> k * r == -(k * Abs(r));
  }

  lemma NearestBelow(x: int, n: int, rest: int, e: int)
    requires x * 0x1_0000 == -rest - e && -40000 < rest < 40000 && 0 <= e <= 0x1_0000 * n
    ensures -n <= x <= 0
  {
  }

  // The rest of dividing by steps is below steps.
  lemma IntervalRest(a: int, n: int)
    requires n > 0
    ensures Abs(a - TruncDiv(a, n) * n) < n
  {
    QuotientBounds(Abs(a), n);
    if a < 0 {
      assert TruncDiv(a, n) * n == -(-a / n * n);
    }
  }

  lemma LineError(s: int, from: int, d: int, n: int, k: int, i: int, r: int, e: int)
    requires s * 0x1_0000 == from * 0x1_0000 + k * i - e && d * 0x1_0000 == i * n + r
    ensures ((s - from) * n - k * d) * 0x1_0000 == -(k * r) - e * n
  {
    assert (s - from) * 0x1_0000 == k * i - e;
    assert (s - from) * n * 0x1_0000 == (k * i - e) * n;
    assert (k * i - e) * n == k * (i * n) - e * n;
    assert k * (d * 0x1_0000) == k * (i * n) + k * r;
    assert k * (d * 0x1_0000) == k * d * 0x1_0000;
  }

  // The fixed-point ramp, k intervals along, is on that line.
  lemma RampOnLine(from: int, to: int, steps: int, k: int)
    requires 0 < steps <= 200 && 0 <= k <= steps
    ensures OnLine((from * ONE + k * TruncDiv((to - from) * ONE, steps)) / ONE, from, to, steps, k)
  {
    var d := to - from;
    var i := TruncDiv(d * ONE, steps);
    var r := d * ONE - i * steps;
    IntervalRest(d * ONE, steps);
    hide TruncDiv;
    var p := from * ONE + k * i;
    var s, e := p / ONE, p % ONE;
    LineError(s, from, d, steps, k, i, r, e);
    SmallProduct(k, steps, r);
    ProductAtMost(e, steps, ONE, steps);
    NearestBelow((s - from) * steps - k * d, steps, k * r, e * steps);
  }

  // The farthest a wheel has to go.
  predicate Farthest(steps: int, m: Motors, goal: Target) {
    && (forall i | 0 <= i < NUM_MOTORS :: Abs(goal[i] - m.wheels[i].speed) <= steps)
    && (exists i | 0 <= i < NUM_MOTORS :: Abs(goal[i] - m.wheels[i].speed) == steps)
  }

  predicate CappedAll(goal: Target, t: Target) {
    forall i | 0 <= i < NUM_MOTORS :: Capped(goal[i], t[i])
  }

  lemma ClampedCaps(t: Target)
    ensures CappedAll(Clamped(t), t)
  {
  }

  lemma NewRamp(m: Motors, t: Target)
    requires SlewDefined(m, t) && Clamped(t) != Finals(m.wheels)
    ensures var s := SlewTo(m, t);
            && s.steps == Distance(m.wheels, Clamped(t)) > 0
            && forall i | 0 <= i < NUM_MOTORS ::
                 s.wheels[i].interval == TruncDiv((Clamped(t)[i] - m.wheels[i].speed) * ONE, s.steps)
  {
    hide TruncDiv, Clamp;
  }

  lemma DistanceIsFarthest(m: Motors, goal: Target)
    ensures Farthest(Distance(m.wheels, goal), m, goal)
  {
    var d, w := Distance(m.wheels, goal), m.wheels;
    assert d == Abs(goal[0] - w[0].speed) || d == Abs(goal[1] - w[1].speed) || d == Abs(goal[2] - w[2].speed);
    hide Distance;
    if d == Abs(goal[0] - w[0].speed) {
    } else if d == Abs(goal[1] - w[1].speed) {
    }
  }

  // On the way to the goal after k events, or there.
  predicate Along(m: Motors, goal: Target, steps: nat, n: Motors, k: nat) {
    forall i | 0 <= i < NUM_MOTORS ::
      if k > steps then n.wheels[i].speed == goal[i]
      else OnLine(n.wheels[i].speed, m.wheels[i].speed, goal[i], steps, k)
  }

  lemma WheelsAlong(m: Motors, goal: Target, s: Motors, n: Motors, k: nat)
    requires 0 < s.steps <= 200 && k <= s.steps
    requires forall i | 0 <= i < NUM_MOTORS ::
               s.wheels[i].interval == TruncDiv((goal[i] - m.wheels[i].speed) * ONE, s.steps)
    requires forall i | 0 <= i < NUM_MOTORS ::
               n.wheels[i].speed == (m.wheels[i].speed * ONE + k * s.wheels[i].interval) / ONE
    ensures Along(m, goal, s.steps, n, k)
  {
    hide TruncDiv, OnLine;
    forall i | 0 <= i < NUM_MOTORS
      ensures OnLine(n.wheels[i].speed, m.wheels[i].speed, goal[i], s.steps, k)
    {
      RampOnLine(m.wheels[i].speed, goal[i], s.steps, k);
    }
  }

  lemma SlewAlong(m: Motors, t: Target, cs: seq<Command>)
    requires InRange(m) && SlewDefined(m, t) && Clamped(t) != Finals(m.wheels)
    requires Uninterrupted(SlewTo(m, t), cs)
    ensures AllDefined(SlewTo(m, t), cs)
    ensures Along(m, Clamped(t), SlewTo(m, t).steps, Run(SlewTo(m, t), cs), Ticks(cs))
  {
    hide Clamped, OnLine, TruncDiv, Run, AllDefined, Uninterrupted;
    SlewToKeeps(m, t);
    NewRamp(m, t);
    ClampedCaps(t);
    DistanceIsFarthest(m, Clamped(t));
    RangeOfSteps(m, t, Clamped(t), SlewTo(m, t).steps);
    ArrivesOnTime(m, t, cs);
    hide SlewTo, InRange, Farthest, SlewDefined;
    if Ticks(cs) <= SlewTo(m, t).steps {
      WheelsAlong(m, Clamped(t), SlewTo(m, t), Run(SlewTo(m, t), cs), Ticks(cs));
    } else {
      SpeedsReached(Run(SlewTo(m, t), cs), Clamped(t));
    }
  }

  lemma SpeedsReached(n: Motors, goal: Target)
    requires Speeds(n.wheels) == goal
    ensures forall i | 0 <= i < NUM_MOTORS :: n.wheels[i].speed == goal[i]
  {
    assert Speeds(n.wheels)[0] == goal[0] && Speeds(n.wheels)[1] == goal[1] && Speeds(n.wheels)[2] == goal[2];
  }

  lemma RunInRange(cs: seq<Command>)
    requires AllDefined(PowerOn(), cs)
    ensures InRange(Run(PowerOn(), cs))
  {
    RunKeeps(PowerOn(), cs);
  }

  // A slew to a new target, after any run: the farthest wheel moves by one with every event,
  // the others keep to the straight line between their speeds, and one event later all have
  // the speeds asked for.
  lemma SlewFollowsLine(past: seq<Command>, t: Target, cs: seq<Command>) returns (goal: Target, steps: nat)
    requires AllDefined(PowerOn(), past)
    requires var m := Run(PowerOn(), past);
             SlewDefined(m, t) && Clamped(t) != Finals(m.wheels) && Uninterrupted(SlewTo(m, t), cs)
    ensures var m := Run(PowerOn(), past);
            && CappedAll(goal, t) && Farthest(steps, m, goal) && AllDefined(SlewTo(m, t), cs)
            && SlewTo(m, t).timeout == 0 && !SlewTo(m, t).voltageMode
            && Along(m, goal, steps, Run(SlewTo(m, t), cs), Ticks(cs))
  {
    hide Along, CappedAll, Farthest, Uninterrupted, InRange;
    var m := Run(PowerOn(), past);
    RunInRange(past);
    ClampedCaps(t);
    NewRamp(m, t);
    DistanceIsFarthest(m, Clamped(t));
    SlewToKeeps(m, t);
    goal, steps := Clamped(t), SlewTo(m, t).steps;
    hide SlewTo, Run, Clamped, AllDefined, SlewDefined;
    SlewAlong(m, t, cs);
  }

  lemma RangeOfSteps(m: Motors, t: Target, goal: Target, steps: nat)
    requires InRange(m) && Farthest(steps, m, goal) && CappedAll(goal, t)
    ensures steps <= 200
  {
  }

  // Left alone, a ramp is not interrupted before the fiftieth event.
  lemma {:induction false} UninterruptedUntilTimeout(m: Motors, n: nat)
    requires m.timeout + n < 50
    decreases n
    ensures Uninterrupted(m, seq(n, k => Tick)) && Ticks(seq(n, k => Tick)) == n
  {
    var cs := seq(n, k => Tick);
    if n > 0 {
      assert cs[1..] == seq(n - 1, k => Tick);
      UninterruptedUntilTimeout(Event(m), n - 1);
    }
  }

  /* The commands that bypass the ramp. */

  // Nothing but the wheels' speeds, the mode and the timeout has changed.
  predicate OnlySpeeds(m: Motors, n: Motors) {
    && n.voltageMode && n.steps == m.steps && n.count == m.count
    && forall i | 0 <= i < NUM_MOTORS :: n.wheels[i] == m.wheels[i].(speed := n.wheels[i].speed)
  }

  // A voltage command gives every wheel its own speed, and starts the timeout anew.
  lemma VoltageSets(m: Motors, p: Target)
    requires forall i | 0 <= i < NUM_MOTORS :: -128 <= p[i] < 128
    ensures var n := Next(m, VoltageCommand(p));
            && OnlySpeeds(m, n) && n.timeout == 0
            && forall i | 0 <= i < NUM_MOTORS :: Capped(n.wheels[i].speed, p[i])
  {
    Int8Fits(p[0]);
    Int8Fits(p[1]);
    Int8Fits(p[2]);
    hide ToInt8;
  }

  // A single wheel is set alone, and does not keep the timeout away.
  lemma WheelSets(m: Motors, motor: int, s: int8)
    ensures var n := Next(m, WheelCommand(motor, s));
            && OnlySpeeds(m, n) && n.timeout == m.timeout
            && forall i | 0 <= i < NUM_MOTORS ::
                 if i == motor then Capped(n.wheels[i].speed, s) else n.wheels[i].speed == m.wheels[i].speed
  {
  }

  // With no ramp pending those speeds last until the fiftieth event without a command, which
  // stops the wheels for good.
  lemma {:induction false} DirectLasts(m: Motors, n: nat)
    requires InRange(m) && m.voltageMode && m.count > m.steps
    ensures IdleDefined(m, n)
    ensures m.timeout + n < 50 ==> Speeds(Idle(m, n).wheels) == Speeds(m.wheels)
    ensures m.timeout + n >= 50 ==> Speeds(Idle(m, n).wheels) == [0, 0, 0]
    decreases n
  {
    DirectTimeout(m, n);
    if n > 0 && m.timeout + n < 50 {
      DirectEvent(m);
      hide InRange, Event, EventDefined;
      DirectLasts(Event(m), n - 1);
    }
  }
}
