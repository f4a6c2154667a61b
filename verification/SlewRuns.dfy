/**
  What the slew guarantees over every run of commands and events.
*/
module SlewRuns {
  import opened Words
  import opened Slew

  /* The ramp of one wheel. */

  lemma ScaleLess(k: nat, n: nat, q: nat)
    requires k <= n
    ensures 0 <= k * q <= n * q
  {
    assert (n - k) * q >= 0 && k * q >= 0;
    assert (n - k) * q == n * q - k * q;
  }

  lemma RampUp(a: nat, steps: nat, k: nat)
    requires 0 < steps && a <= steps && k <= steps
    ensures var q := a * ONE / steps;
            && 0 <= q <= ONE && 0 <= k * q <= a * ONE && a * ONE - steps < steps * q
  {
    var q := a * ONE / steps;
    QuotientBounds(a * ONE, steps);
    ScaleLess(a, steps, ONE);
    assert steps * ONE == ONE * steps;
    QuotientAtMost(a * ONE, steps, ONE);
    ScaleLess(k, steps, q);
    assert steps * q == q * steps;
  }

  // Interval times k stays between zero and the whole distance, and misses it by less than
  // steps at the end, always on the near side.
  lemma RampArithmetic(d: int, steps: nat, k: nat)
    requires 0 < steps && Abs(d) <= steps && k <= steps
    ensures var i := TruncDiv(d * ONE, steps);
            && Abs(i) <= ONE
            && (d >= 0 ==> 0 <= k * i <= d * ONE && d * ONE - steps < steps * i)
            && (d <= 0 ==> d * ONE <= k * i <= 0 && steps * i < d * ONE + steps)
  {
    RampUp(Abs(d), steps, k);
    var q := Abs(d) * ONE / steps;
    if d < 0 {
      assert -(d * ONE) == Abs(d) * ONE;
      NegateProduct(k, q);
      NegateProduct(steps, q);
    }
  }

  lemma NegateProduct(k: int, q: int)
    ensures k * -q == -(k * q)
  {
  }

  function PositionAt(w: Wheel, k: int): int {
    w.start * ONE + k * w.interval
  }

  // A wheel that is count steps into a ramp of so many steps.
  predicate Ramping(w: Wheel, steps: nat, count: nat) {
    && Abs(w.start) <= MAX_SPEED && Abs(w.final) <= MAX_SPEED
    && 0 < steps <= 2 * MAX_SPEED && Abs(w.final - w.start) <= steps && 0 <= count <= steps
    && w.interval == TruncDiv((w.final - w.start) * ONE, steps)
    && w.float == PositionAt(w, count)
  }

  predicate Between(x: int, a: int, b: int) {
    a <= x <= b || b <= x <= a
  }

  lemma PositionBetween(w: Wheel, steps: nat, count: nat)
    requires Ramping(w, steps, count)
    ensures Between(w.float / ONE, w.start, w.final)
    ensures ToInt8(w.float / ONE) == w.float / ONE
    ensures count == steps ==> Abs(w.final - w.float / ONE) <= 1
  {
    RampArithmetic(w.final - w.start, steps, count);
    var d := (w.final - w.start) * ONE;
    assert w.start * ONE + d == w.final * ONE;
  }

  lemma RampStep(w: Wheel, steps: nat, count: nat)
    requires Ramping(w, steps, count) && count < steps
    ensures Ramping(w.Ramp(), steps, count + 1)
    ensures w.Ramp().speed == w.Ramp().float / ONE
    ensures Abs(w.Ramp().float / ONE - w.float / ONE) <= 1
  {
    assert (count + 1) * w.interval == count * w.interval + w.interval;
    RampArithmetic(w.final - w.start, steps, count);
    PositionBetween(w.Ramp(), steps, count + 1);
  }

  /* Runs. */

  datatype Command =
    | SlewCommand(target: Target)
    | XyThetaCommand(x: int8, y: int8, theta: int8)
    | VoltageCommand(p: Target)
    | WheelCommand(motor: int, s: int8)
    | Tick

  // The commands that bypass the ramp.
  predicate Direct(c: Command) {
    c.VoltageCommand? || c.WheelCommand?
  }

  predicate Defined(m: Motors, c: Command) {
    match c
    case SlewCommand(t) => SlewDefined(m, t)
    case XyThetaCommand(x, y, t) => SlewDefined(m, XyTheta(x, y, t))
    case VoltageCommand(p) => true
    case WheelCommand(i, s) => true
    case Tick => EventDefined(m)
  }

  function Next(m: Motors, c: Command): Motors
    requires Defined(m, c)
  {
    match c
    case SlewCommand(t) => SlewTo(m, t)
    case XyThetaCommand(x, y, t) => SlewTo(m, XyTheta(x, y, t))
    case VoltageCommand(p) => SetVoltage(m, p)
    case WheelCommand(i, s) => SetWheel(m, i, s)
    case Tick => Event(m)
  }

  predicate AllDefined(m: Motors, cs: seq<Command>)
    decreases |cs|
  {
    cs == [] || (Defined(m, cs[0]) && AllDefined(Next(m, cs[0]), cs[1..]))
  }

  function Run(m: Motors, cs: seq<Command>): Motors
    requires AllDefined(m, cs)
    decreases |cs|
  {
    if cs == [] then m else Run(Next(m, cs[0]), cs[1..])
  }

  predicate WheelInRange(w: Wheel, steps: nat, count: nat) {
    && Abs(w.speed) <= MAX_SPEED && Abs(w.final) <= MAX_SPEED
    && (count <= steps ==> Ramping(w, steps, count))
  }

  predicate WheelOnTrack(w: Wheel, steps: nat, count: nat) {
    w.speed == if count <= steps then w.float / ONE else w.final
  }

  // Holds over every run, voltage commands included.
  predicate InRange(m: Motors) {
    && m.timeout < TIMEOUT && m.count <= m.steps + 1
    && WheelInRange(m.wheels[0], m.steps, m.count)
    && WheelInRange(m.wheels[1], m.steps, m.count)
    && WheelInRange(m.wheels[2], m.steps, m.count)
    && (m.count <= m.steps ==> m.steps == FarthestWheel(m.wheels))
  }

  function FarthestWheel(w: Wheels): nat {
    Max3(Abs(w[0].final - w[0].start), Abs(w[1].final - w[1].start), Abs(w[2].final - w[2].start))
  }

  // Holds over every run without voltage commands: the speeds are where the ramp says.
  predicate OnTrack(m: Motors) {
    && WheelOnTrack(m.wheels[0], m.steps, m.count)
    && WheelOnTrack(m.wheels[1], m.steps, m.count)
    && WheelOnTrack(m.wheels[2], m.steps, m.count)
  }

  lemma WheelBegins(w: Wheel, target: int, steps: nat)
    requires Abs(w.speed) <= MAX_SPEED && Abs(target) <= MAX_SPEED
    requires 0 < steps <= 2 * MAX_SPEED && Abs(target - w.speed) <= steps
    ensures var b := w.Begin(target, steps);
            && WheelInRange(b, steps, 0) && WheelOnTrack(b, steps, 0)
            && b.speed == b.start == w.speed && b.final == target
  {
    hide TruncDiv;
  }

  lemma SlewToKeeps(m: Motors, t: Target)
    requires InRange(m) && SlewDefined(m, t)
    ensures InRange(SlewTo(m, t)) && Speeds(SlewTo(m, t).wheels) == Speeds(m.wheels)
    ensures OnTrack(m) || Clamped(t) != Finals(m.wheels) ==> OnTrack(SlewTo(m, t))
    ensures Finals(SlewTo(m, t).wheels) == Clamped(t) && SlewTo(m, t).timeout == 0 && !SlewTo(m, t).voltageMode
    ensures Clamped(t) != Finals(m.wheels) ==>
              && SlewTo(m, t).count == 0 < SlewTo(m, t).steps == Distance(m.wheels, Clamped(t))
              && forall i | 0 <= i < NUM_MOTORS :: SlewTo(m, t).wheels[i].start == m.wheels[i].speed
  {
    hide TruncDiv, Ramping;
    var goal, w := Clamped(t), m.wheels;
    if goal != Finals(w) {
      var steps := Distance(w, goal);
      WheelBegins(w[0], goal[0], steps);
      WheelBegins(w[1], goal[1], steps);
      WheelBegins(w[2], goal[2], steps);
      hide WheelInRange, WheelOnTrack;
      assert SlewTo(m, t).wheels == [w[0].Begin(goal[0], steps), w[1].Begin(goal[1], steps), w[2].Begin(goal[2], steps)];
    }
  }

  lemma TimeoutKeeps(m: Motors)
    requires InRange(m) && EventDefined(m)
    ensures InRange(Timeout(m))
    ensures OnTrack(m) && !m.voltageMode ==> OnTrack(Timeout(m)) && Speeds(Timeout(m).wheels) == Speeds(m.wheels)
    ensures Timeout(m).voltageMode == m.voltageMode
  {
    if TimesOut(m) && !m.voltageMode {
      SlewToKeeps(m, STOP);
    }
    hide SlewTo, Ramping;
  }

  lemma WheelAdvances(w: Wheel, steps: nat, count: nat)
    requires WheelInRange(w, steps, count) && count <= steps
    ensures var a := if count < steps then w.Ramp() else w.Snap();
            && WheelInRange(a, steps, count + 1) && WheelOnTrack(a, steps, count + 1)
            && (WheelOnTrack(w, steps, count) ==> Abs(a.speed - w.speed) <= 1)
            && Between(a.speed, w.start, w.final)
  {
    if count < steps {
      RampStep(w, steps, count);
      PositionBetween(w.Ramp(), steps, count + 1);
    } else {
      PositionBetween(w, steps, count);
    }
  }

  // One ramp step: at most one apart, and on the near side of the target.
  predicate SmallMoves(v: Wheels, w: Wheels, bound: nat) {
    && Abs(w[0].speed - v[0].speed) <= bound
    && Abs(w[1].speed - v[1].speed) <= bound
    && Abs(w[2].speed - v[2].speed) <= bound
  }

  lemma AdvanceSameFarthest(m: Motors)
    ensures FarthestWheel(Advance(m).wheels) == FarthestWheel(m.wheels)
  {
    hide ToInt8;
  }

  lemma AdvanceKeeps(m: Motors)
    requires InRange(m)
    ensures InRange(Advance(m))
    ensures OnTrack(m) ==> OnTrack(Advance(m)) && SmallMoves(m.wheels, Advance(m).wheels, 1)
  {
    if m.count <= m.steps {
      hide WheelInRange, WheelOnTrack, ToInt8, FarthestWheel;
      AdvanceSameFarthest(m);
      WheelAdvances(m.wheels[0], m.steps, m.count);
      WheelAdvances(m.wheels[1], m.steps, m.count);
      WheelAdvances(m.wheels[2], m.steps, m.count);
    }
  }

  lemma VoltageKeeps(m: Motors, p: Target)
    requires InRange(m)
    ensures InRange(SetVoltage(m, p))
  {
    hide TruncDiv;
  }

  lemma WheelKeeps(m: Motors, motor: int, s: int)
    requires InRange(m)
    ensures InRange(SetWheel(m, motor, s))
  {
    WheelRampKept(m, motor, s);
    var n := SetWheel(m, motor, s);
    hide SetWheel;
    SpeedChanged(m.wheels[0], n.wheels[0].speed, m.steps, m.count);
    SpeedChanged(m.wheels[1], n.wheels[1].speed, m.steps, m.count);
    SpeedChanged(m.wheels[2], n.wheels[2].speed, m.steps, m.count);
    hide WheelInRange;
  }

  lemma SpeedChanged(w: Wheel, s: int, steps: nat, count: nat)
    requires WheelInRange(w, steps, count) && Abs(s) <= MAX_SPEED
    ensures WheelInRange(w.(speed := s), steps, count)
  {
    hide TruncDiv;
  }

  lemma WheelRampKept(m: Motors, motor: int, s: int)
    requires InRange(m)
    ensures var n := SetWheel(m, motor, s);
            && n.steps == m.steps && n.count == m.count && n.timeout == m.timeout
            && forall i | 0 <= i < NUM_MOTORS ::
                 Abs(n.wheels[i].speed) <= MAX_SPEED && n.wheels[i] == m.wheels[i].(speed := n.wheels[i].speed)
  {
    hide Ramping, FarthestWheel;
  }

  lemma TickKeeps(m: Motors)
    requires InRange(m) && EventDefined(m)
    ensures InRange(Event(m))
    ensures OnTrack(m) && !m.voltageMode ==>
              OnTrack(Event(m)) && !Event(m).voltageMode && SmallMoves(m.wheels, Event(m).wheels, 1)
  {
    TimeoutKeeps(m);
    AdvanceKeeps(Timeout(m));
    hide InRange, Timeout, OnTrack;
    if OnTrack(m) && !m.voltageMode {
      SameSpeeds(m.wheels, Timeout(m).wheels);
    }
  }

  lemma CommandKeeps(m: Motors, t: Target)
    requires InRange(m) && SlewDefined(m, t)
    ensures InRange(SlewTo(m, t))
    ensures OnTrack(m) ==>
              OnTrack(SlewTo(m, t)) && !SlewTo(m, t).voltageMode && SmallMoves(m.wheels, SlewTo(m, t).wheels, 0)
  {
    SlewToKeeps(m, t);
    hide SlewTo, InRange, Clamped, OnTrack;
    SameSpeeds(m.wheels, SlewTo(m, t).wheels);
  }

  lemma NextKeeps(m: Motors, c: Command)
    requires InRange(m) && Defined(m, c)
    ensures InRange(Next(m, c))
    ensures OnTrack(m) && !m.voltageMode && !Direct(c) ==>
              && OnTrack(Next(m, c)) && !Next(m, c).voltageMode
              && SmallMoves(m.wheels, Next(m, c).wheels, if c.Tick? then 1 else 0)
  {
    hide InRange, OnTrack, SlewTo, SetVoltage, SetWheel, Event, SmallMoves, XyTheta;
    match c
    case SlewCommand(t) =>
      CommandKeeps(m, t);
    case XyThetaCommand(x, y, t) =>
      CommandKeeps(m, XyTheta(x, y, t));
    case VoltageCommand(p) =>
      VoltageKeeps(m, p);
    case WheelCommand(i, s) =>
      WheelKeeps(m, i, s);
    case Tick =>
      TickKeeps(m);
  }

  lemma SameSpeeds(v: Wheels, w: Wheels)
    requires Speeds(v) == Speeds(w)
    ensures v[0].speed == w[0].speed && v[1].speed == w[1].speed && v[2].speed == w[2].speed
  {
    assert Speeds(v)[0] == Speeds(w)[0] && Speeds(v)[1] == Speeds(w)[1] && Speeds(v)[2] == Speeds(w)[2];
  }

  lemma {:induction false} RunKeeps(m: Motors, cs: seq<Command>)
    requires InRange(m) && AllDefined(m, cs)
    ensures InRange(Run(m, cs))
    ensures OnTrack(m) && !m.voltageMode && (forall c | c in cs :: !Direct(c)) ==>
              OnTrack(Run(m, cs)) && !Run(m, cs).voltageMode
    decreases |cs|
  {
    hide InRange, OnTrack, Next;
    if cs != [] {
      NextKeeps(m, cs[0]);
      RunKeeps(Next(m, cs[0]), cs[1..]);
    }
  }

  // Whatever is commanded, no wheel speed leaves the range.
  lemma SpeedsInRange(cs: seq<Command>)
    requires AllDefined(PowerOn(), cs)
    ensures forall i | 0 <= i < NUM_MOTORS :: Abs(Run(PowerOn(), cs).wheels[i].speed) <= MAX_SPEED
  {
    RunKeeps(PowerOn(), cs);
  }

  lemma OneWheel(m: Motors, i: nat)
    requires InRange(m) && OnTrack(m) && i < NUM_MOTORS
    ensures WheelInRange(m.wheels[i], m.steps, m.count) && WheelOnTrack(m.wheels[i], m.steps, m.count)
  {
    hide WheelInRange, WheelOnTrack;
  }

  predicate Smooth(m: Motors, n: Motors, i: nat, bound: nat)
    requires i < NUM_MOTORS
  {
    && Abs(n.wheels[i].speed - m.wheels[i].speed) <= bound
    && (n.count <= n.steps ==> Between(n.wheels[i].speed, n.wheels[i].start, n.wheels[i].final))
    && (n.count > n.steps ==> n.wheels[i].speed == n.wheels[i].final)
  }

  lemma SmoothWheel(m: Motors, n: Motors, i: nat, bound: nat)
    requires InRange(n) && OnTrack(n) && SmallMoves(m.wheels, n.wheels, bound) && i < NUM_MOTORS
    ensures Smooth(m, n, i, bound)
  {
    OneWheel(n, i);
    hide InRange, OnTrack;
    if n.count <= n.steps {
      PositionBetween(n.wheels[i], n.steps, n.count);
    }
  }

  // Under slew and x-y-theta commands, each further step moves a wheel by at most one, the
  // final snap included, and no wheel overshoots: it stays between start and target.
  lemma SlewIsSmooth(cs: seq<Command>, c: Command, i: nat)
    requires AllDefined(PowerOn(), cs) && Defined(Run(PowerOn(), cs), c)
    requires !Direct(c) && forall d | d in cs :: !Direct(d)
    requires i < NUM_MOTORS
    ensures Smooth(Run(PowerOn(), cs), Next(Run(PowerOn(), cs), c), i, if c.Tick? then 1 else 0)
  {
    RunKeeps(PowerOn(), cs);
    var m := Run(PowerOn(), cs);
    assert InRange(m) && OnTrack(m);
    hide Next, Run, InRange, OnTrack;
    NextKeeps(m, c);
    SmoothWheel(m, Next(m, c), i, if c.Tick? then 1 else 0);
  }

  /* Arrival. */

  function Ticks(cs: seq<Command>): nat {
    if cs == [] then 0 else (if cs[0].Tick? then 1 else 0) + Ticks(cs[1..])
  }

  // Events before the timeout, and repetitions of the target already commanded.
  predicate Uninterrupted(m: Motors, cs: seq<Command>)
    decreases |cs|
  {
    cs == [] ||
    match cs[0]
    case Tick => !TimesOut(m) && Uninterrupted(Event(m), cs[1..])
    case SlewCommand(t) => Clamped(t) == Finals(m.wheels) && Uninterrupted(SlewTo(m, t), cs[1..])
    case XyThetaCommand(x, y, t) =>
      Clamped(XyTheta(x, y, t)) == Finals(m.wheels) && Uninterrupted(SlewTo(m, XyTheta(x, y, t)), cs[1..])
    case _ => false
  }

  predicate SameRamp(v: Wheels, w: Wheels) {
    forall i | 0 <= i < NUM_MOTORS ::
      v[i].final == w[i].final && v[i].start == w[i].start && v[i].interval == w[i].interval
  }

  lemma {:induction false} Progress(m: Motors, cs: seq<Command>)
    requires Uninterrupted(m, cs) && m.count <= m.steps + 1
    ensures AllDefined(m, cs)
    ensures var n := Run(m, cs);
            && n.steps == m.steps && SameRamp(n.wheels, m.wheels)
            && n.count == if m.count + Ticks(cs) <= m.steps then m.count + Ticks(cs) else m.steps + 1
    decreases |cs|
  {
    if cs != [] {
      assert Defined(m, cs[0]);
      var n := Next(m, cs[0]);
      assert SameRamp(n.wheels, m.wheels) && n.steps == m.steps && n.count <= n.steps + 1;
      Progress(n, cs[1..]);
    }
  }

  // A new target is reached after exactly steps + 1 events without interruption, and after k
  // of them each wheel is k intervals along its ramp.
  lemma ArrivesOnTime(m: Motors, t: Target, cs: seq<Command>)
    requires InRange(m) && SlewDefined(m, t) && Clamped(t) != Finals(m.wheels)
    requires Uninterrupted(SlewTo(m, t), cs)
    ensures AllDefined(SlewTo(m, t), cs)
    ensures var s, n := SlewTo(m, t), Run(SlewTo(m, t), cs);
            && (Ticks(cs) > s.steps ==> Speeds(n.wheels) == Clamped(t))
            && (Ticks(cs) <= s.steps ==>
                  forall i | 0 <= i < NUM_MOTORS ::
                    n.wheels[i].speed == (m.wheels[i].speed * ONE + Ticks(cs) * s.wheels[i].interval) / ONE)
  {
    var s := SlewTo(m, t);
    SlewToKeeps(m, t);
    Progress(s, cs);
    RunKeeps(s, cs);
    NoVoltage(s, cs);
    var n := Run(s, cs);
    assert forall i | 0 <= i < NUM_MOTORS :: s.wheels[i].start == m.wheels[i].speed;
    hide SlewTo, Run;
    if Ticks(cs) > s.steps {
      assert Speeds(n.wheels) == Finals(s.wheels);
    }
  }

  lemma {:induction false} NoVoltage(m: Motors, cs: seq<Command>)
    requires Uninterrupted(m, cs)
    ensures forall c | c in cs :: !Direct(c)
    decreases |cs|
  {
    if cs != [] {
      NoVoltage(Next(m, cs[0]), cs[1..]);
    }
  }

  /* Stopping when commands cease. */

  predicate IdleDefined(m: Motors, n: nat)
    decreases n
  {
    n == 0 || (EventDefined(m) && IdleDefined(Event(m), n - 1))
  }

  function Idle(m: Motors, n: nat): Motors
    requires IdleDefined(m, n)
    decreases n
  {
    if n == 0 then m else Idle(Event(m), n - 1)
  }

  predicate Stopped(m: Motors) {
    Speeds(m.wheels) == STOP
  }

  // Commanded to stop, no ramp pending, and yet turning: a voltage command left this speed
  // and the stop command that followed was taken for a repetition.
  predicate Stuck(m: Motors) {
    m.count > m.steps && Finals(m.wheels) == STOP && !Stopped(m)
  }

  lemma {:induction false} StuckStays(m: Motors, n: nat)
    requires Stuck(m) && !m.voltageMode && m.timeout < TIMEOUT && IdleDefined(m, n)
    ensures Speeds(Idle(m, n).wheels) == Speeds(m.wheels)
    decreases n
  {
    if n > 0 {
      assert Clamped(STOP) == STOP;
      StuckStays(Event(m), n - 1);
    }
  }

  // With a zero target, what remains of the ramp is enough.
  lemma {:induction false} Settles(m: Motors, n: nat)
    requires InRange(m) && !m.voltageMode && Finals(m.wheels) == STOP && !Stuck(m) && IdleDefined(m, n)
    requires m.count + n >= m.steps + 1
    ensures Stopped(Idle(m, n))
    decreases n
  {
    if n == 0 {
      assert m.count > m.steps;
    } else {
      assert Clamped(STOP) == STOP;
      TimeoutKeeps(m);
      AdvanceKeeps(Timeout(m));
      var e := Event(m);
      assert Finals(e.wheels) == STOP && e.steps == m.steps;
      assert m.count > m.steps ==> Stopped(m) && Speeds(e.wheels) == Speeds(m.wheels);
      assert m.count == m.steps ==> Speeds(e.wheels) == Finals(m.wheels);
      hide InRange, Timeout, Advance;
      Settles(e, n - 1);
    }
  }

  const RAMP_TO_STOP := MAX_SPEED + TIMEOUT

  lemma TimeoutBegins(m: Motors)
    requires InRange(m) && !m.voltageMode && TimesOut(m) && EventDefined(m) && Finals(m.wheels) != STOP
    ensures var e := Event(m);
            && InRange(e) && !e.voltageMode && Finals(e.wheels) == STOP
            && e.count == 1 <= e.steps <= MAX_SPEED
  {
    TimeoutDefinedIff(m);
    assert Clamped(STOP) == STOP;
    SlewToKeeps(m, STOP);
    StepsToStop(SlewTo(m, STOP));
    hide InRange, SlewTo;
  }

  lemma QuietEvent(m: Motors)
    requires InRange(m) && !m.voltageMode && !TimesOut(m)
    ensures var e := Event(m);
            && InRange(e) && !e.voltageMode && Finals(e.wheels) == Finals(m.wheels)
            && e.timeout == m.timeout + 1
  {
    TickKeeps(m);
    hide InRange;
  }

  lemma {:induction false} StopsAfterTimeout(m: Motors, n: nat)
    requires InRange(m) && !m.voltageMode && !Stuck(m) && IdleDefined(m, n)
    requires n + m.timeout >= RAMP_TO_STOP
    ensures Stopped(Idle(m, n))
    decreases n
  {
    if Finals(m.wheels) == STOP {
      StepsToStop(m);
      Settles(m, n);
    } else if TimesOut(m) {
      TimeoutBegins(m);
      hide InRange, Event, EventDefined, Stopped, Finals;
      Settles(Event(m), n - 1);
    } else {
      QuietEvent(m);
      hide InRange, Event, EventDefined, Stopped, Finals;
      StopsAfterTimeout(Event(m), n - 1);
    }
  }

  lemma StepsToStop(m: Motors)
    requires InRange(m) && Finals(m.wheels) == STOP
    ensures m.count <= m.steps ==> m.steps <= MAX_SPEED
  {
    assert m.wheels[0].final == Finals(m.wheels)[0] == 0;
    assert m.wheels[1].final == Finals(m.wheels)[1] == 0;
    assert m.wheels[2].final == Finals(m.wheels)[2] == 0;
  }

  /* When the timeout divides by zero. */

  // The speed of a wheel k events from now, if the timeout does not come first.
  function SpeedAfter(w: Wheel, steps: nat, count: nat, k: nat): int {
    if k == 0 || count > steps then w.speed
    else if count + k <= steps then PositionAt(w, count + k) / ONE
    else w.final
  }

  lemma SpeedAfterStep(w: Wheel, steps: nat, count: nat, k: nat)
    requires WheelInRange(w, steps, count) && count <= steps && k > 0
    ensures var a := if count < steps then w.Ramp() else w.Snap();
            SpeedAfter(a, steps, count + 1, k - 1) == SpeedAfter(w, steps, count, k)
  {
    if count < steps {
      RampStep(w, steps, count);
      hide TruncDiv, ToInt8;
    }
  }

  predicate SpeedsAre(v: Wheels, w: Wheels, steps: nat, count: nat, k: nat) {
    && v[0].speed == SpeedAfter(w[0], steps, count, k)
    && v[1].speed == SpeedAfter(w[1], steps, count, k)
    && v[2].speed == SpeedAfter(w[2], steps, count, k)
  }

  lemma SpeedsStep(v: Wheels, m: Motors, k: nat)
    requires InRange(m) && k > 0
    ensures var e := Advance(m);
            SpeedsAre(v, e.wheels, e.steps, e.count, k - 1) ==> SpeedsAre(v, m.wheels, m.steps, m.count, k)
  {
    if m.count <= m.steps {
      SpeedAfterStep(m.wheels[0], m.steps, m.count, k);
      SpeedAfterStep(m.wheels[1], m.steps, m.count, k);
      SpeedAfterStep(m.wheels[2], m.steps, m.count, k);
      hide SpeedAfter, WheelInRange, FarthestWheel;
    }
  }

  // Before the timeout nothing divides, and the wheels follow their ramps.
  lemma {:induction false} Coasts(m: Motors, k: nat)
    requires InRange(m) && !m.voltageMode && m.timeout + k < TIMEOUT
    ensures IdleDefined(m, k)
    ensures var n := Idle(m, k);
            && InRange(n) && !n.voltageMode && n.timeout == m.timeout + k
            && Finals(n.wheels) == Finals(m.wheels) && SpeedsAre(n.wheels, m.wheels, m.steps, m.count, k)
    decreases k
  {
    if k > 0 {
      var t := Timeout(m);
      TickKeeps(m);
      assert InRange(t);
      SpeedsStep(Idle(Event(m), 0).wheels, t, 1);
      hide InRange, SpeedsAre;
      Coasts(Event(m), k - 1);
      SpeedsStep(Idle(Event(m), k - 1).wheels, t, k);
    }
  }

  // All wheels will stand at zero when the timeout comes.
  predicate ZeroAtTimeout(m: Motors)
    requires m.timeout < TIMEOUT
  {
    var k := TIMEOUT - 1 - m.timeout;
    && SpeedAfter(m.wheels[0], m.steps, m.count, k) == 0
    && SpeedAfter(m.wheels[1], m.steps, m.count, k) == 0
    && SpeedAfter(m.wheels[2], m.steps, m.count, k) == 0
  }

  // The timeout will command a stop that is new, over no distance.
  predicate WillDivideByZero(m: Motors)
    requires m.timeout < TIMEOUT
  {
    Finals(m.wheels) != STOP && ZeroAtTimeout(m)
  }

  lemma {:induction false} IdleInTurn(m: Motors, k: nat, n: nat)
    ensures IdleDefined(m, k + n) <==> IdleDefined(m, k) && IdleDefined(Idle(m, k), n)
    decreases k
  {
    hide Event, EventDefined;
    if k > 0 && EventDefined(m) {
      IdleInTurn(Event(m), k - 1, n);
    }
  }

  lemma {:induction false} NothingToDivide(m: Motors, n: nat)
    requires InRange(m) && !m.voltageMode && Finals(m.wheels) == STOP
    ensures IdleDefined(m, n)
    decreases n
  {
    assert Clamped(STOP) == STOP;
    if n > 0 {
      TickKeeps(m);
      var e := Event(m);
      assert !e.voltageMode && Finals(e.wheels) == STOP;
      hide InRange, Event, EventDefined;
      NothingToDivide(e, n - 1);
    }
  }

  lemma TimeoutDefinedIff(m: Motors)
    requires InRange(m) && !m.voltageMode && TimesOut(m)
    ensures EventDefined(m) <==> Finals(m.wheels) == STOP || Speeds(m.wheels) != STOP
    ensures EventDefined(m) ==> InRange(Event(m)) && !Event(m).voltageMode && Finals(Event(m).wheels) == STOP
  {
    assert Clamped(STOP) == STOP;
    if EventDefined(m) {
      TickKeeps(m);
      SlewToKeeps(m, STOP);
      hide InRange, SlewTo;
      assert Finals(Timeout(m).wheels) == STOP;
    }
  }

  // Left alone in slew mode, the robot divides by zero exactly if the time for the timeout is
  // reached, the commanded speeds are not zero, and the actual ones will be.
  lemma IdleDefinedIff(m: Motors, n: nat)
    requires InRange(m) && !m.voltageMode
    ensures IdleDefined(m, n) <==> m.timeout + n < TIMEOUT || !WillDivideByZero(m)
  {
    hide *;
    TimeoutAhead(m);
    if m.timeout + n < TIMEOUT {
      Coasts(m, n);
    } else {
      PastTimeout(m, n);
      DividesAtTimeout(m);
    }
  }

  lemma TimeoutAhead(m: Motors)
    requires InRange(m)
    ensures m.timeout < TIMEOUT
  {
  }

  // Past the timeout only its own event can divide.
  lemma PastTimeout(m: Motors, n: nat)
    requires InRange(m) && !m.voltageMode && m.timeout < TIMEOUT <= m.timeout + n
    ensures IdleDefined(m, TIMEOUT - 1 - m.timeout)
    ensures IdleDefined(m, n) <==> EventDefined(Idle(m, TIMEOUT - 1 - m.timeout))
  {
    hide *;
    var k := TIMEOUT - 1 - m.timeout;
    ReachesTimeout(m);
    var at := Idle(m, k);
    IdleInTurn(m, k, n - k);
    OneEventMore(at, n - k);
    if EventDefined(at) {
      TimeoutDefinedIff(at);
      NothingToDivide(Event(at), n - k - 1);
    }
  }

  lemma DividesAtTimeout(m: Motors)
    requires InRange(m) && !m.voltageMode && m.timeout < TIMEOUT
    ensures IdleDefined(m, TIMEOUT - 1 - m.timeout)
    ensures EventDefined(Idle(m, TIMEOUT - 1 - m.timeout)) <==> !WillDivideByZero(m)
  {
    hide *;
    ReachesTimeout(m);
    TimeoutDefinedIff(Idle(m, TIMEOUT - 1 - m.timeout));
    DividesWhenZero(m);
  }

  lemma DividesWhenZero(m: Motors)
    requires m.timeout < TIMEOUT
    ensures WillDivideByZero(m) <==> Finals(m.wheels) != STOP && ZeroAtTimeout(m)
  {
  }

  lemma OneEventMore(m: Motors, n: nat)
    requires n > 0
    ensures IdleDefined(m, n) <==> EventDefined(m) && IdleDefined(Event(m), n - 1)
  {
    hide Event, EventDefined;
  }

  lemma ReachesTimeout(m: Motors)
    requires InRange(m) && !m.voltageMode
    ensures m.timeout < TIMEOUT && IdleDefined(m, TIMEOUT - 1 - m.timeout)
    ensures var at := Idle(m, TIMEOUT - 1 - m.timeout);
            && InRange(at) && !at.voltageMode && TimesOut(at) && Finals(at.wheels) == Finals(m.wheels)
            && (Speeds(at.wheels) == STOP <==> ZeroAtTimeout(m))
  {
    Coasts(m, TIMEOUT - 1 - m.timeout);
    var at := Idle(m, TIMEOUT - 1 - m.timeout);
    ZeroSpeeds(at.wheels);
    hide Speeds, SpeedAfter, Idle, IdleDefined;
  }

  lemma ZeroSpeeds(w: Wheels)
    ensures Speeds(w) == STOP <==> w[0].speed == 0 && w[1].speed == 0 && w[2].speed == 0
  {
    assert Speeds(w)[0] == w[0].speed && Speeds(w)[1] == w[1].speed && Speeds(w)[2] == w[2].speed;
  }

  // In slew mode with no further command, all wheels are at rest after 150 events and remain
  // so: unless a leftover voltage speed was mistaken for the target already reached, in which
  // case they never are, or the timeout divides by zero.
  lemma SafeStopIff(cs: seq<Command>, n: nat)
    requires AllDefined(PowerOn(), cs)
    requires !Run(PowerOn(), cs).voltageMode && n >= RAMP_TO_STOP
    ensures var m := Run(PowerOn(), cs);
            && m.timeout < TIMEOUT
            && (IdleDefined(m, n) && Stopped(Idle(m, n)) <==> !Stuck(m) && !WillDivideByZero(m))
  {
    RunKeeps(PowerOn(), cs);
    var m := Run(PowerOn(), cs);
    hide Run, WillDivideByZero;
    IdleDefinedIff(m, n);
    if IdleDefined(m, n) {
      if Stuck(m) {
        StuckStays(m, n);
        assert Speeds(Idle(m, n).wheels) == Speeds(m.wheels);
      } else {
        StopsAfterTimeout(m, n);
      }
    }
  }

  /* Stopping in voltage mode. */

  lemma DirectEvent(m: Motors)
    requires InRange(m) && m.voltageMode
    ensures EventDefined(m) && InRange(Event(m)) && Event(m).voltageMode
    ensures Event(m).steps == m.steps && Finals(Event(m).wheels) == Finals(m.wheels)
    ensures Event(m).count == if m.count <= m.steps then m.count + 1 else m.count
    ensures Event(m).timeout == if TimesOut(m) then 0 else m.timeout + 1
    ensures m.count > m.steps ==>
              Speeds(Event(m).wheels) == if TimesOut(m) then STOP else Speeds(m.wheels)
  {
    TickKeeps(m);
    hide InRange, ToInt8;
    assert Clamp(ToInt8(0)) == 0 by { Int8Fits(0); }
  }

  // With no ramp pending the timeout stops the wheels for good.
  lemma {:induction false} DirectTimeout(m: Motors, n: nat)
    requires InRange(m) && m.voltageMode && m.count > m.steps
    ensures IdleDefined(m, n)
    ensures Stopped(m) || m.timeout + n >= TIMEOUT ==> Stopped(Idle(m, n))
    decreases n
  {
    if n > 0 {
      DirectEvent(m);
      hide InRange, Event, EventDefined;
      DirectTimeout(Event(m), n - 1);
    }
  }

  const RAMP_AND_TIMEOUT := 2 * MAX_SPEED + 1 + TIMEOUT

  lemma {:induction false} DirectStops(m: Motors, n: nat)
    requires InRange(m) && m.voltageMode
    ensures IdleDefined(m, n)
    ensures m.count <= m.steps && n >= m.steps + 1 - m.count + TIMEOUT ==> Stopped(Idle(m, n))
    ensures m.count > m.steps && n >= TIMEOUT ==> Stopped(Idle(m, n))
    decreases n
  {
    if m.count > m.steps {
      DirectTimeout(m, n);
    } else if n > 0 {
      DirectEvent(m);
      hide InRange, Event, EventDefined, Stopped;
      DirectStops(Event(m), n - 1);
    }
  }

  lemma RampIsShort(m: Motors)
    requires InRange(m)
    ensures m.count <= m.steps ==> m.steps <= 2 * MAX_SPEED
  {
  }

  // After any run that ends in voltage mode nothing divides, and all wheels are at rest after
  // 251 events and remain so: the rest of a pending ramp, its snap, and one timeout.
  lemma SafeStopDirect(cs: seq<Command>, n: nat)
    requires AllDefined(PowerOn(), cs)
    requires Run(PowerOn(), cs).voltageMode && n >= RAMP_AND_TIMEOUT
    ensures IdleDefined(Run(PowerOn(), cs), n) && Stopped(Idle(Run(PowerOn(), cs), n))
  {
    RunKeeps(PowerOn(), cs);
    RampIsShort(Run(PowerOn(), cs));
    DirectStops(Run(PowerOn(), cs), n);
  }

  // The timeout alone does not do: a ramp still pending turns the wheels on.
  lemma TimeoutOverriddenByRamp()
    ensures var cs := [SlewCommand([100, 100, 100]), VoltageCommand([0, 0, 0])];
            && AllDefined(PowerOn(), cs)
            && var m := Run(PowerOn(), cs);
            && m.voltageMode && IdleDefined(m, TIMEOUT)
            && Speeds(Idle(m, TIMEOUT).wheels) == [TIMEOUT, TIMEOUT, TIMEOUT]
  {
    var up: Target := [100, 100, 100];
    var a, b := SlewCommand(up), VoltageCommand([0, 0, 0]);
    RampTo100();
    var s := SlewTo(PowerOn(), up);
    VoltageKeeps(s, [0, 0, 0]);
    var m := SetVoltage(s, [0, 0, 0]);
    assert m.steps == 100 && m.count == 0;
    assert forall i | 0 <= i < NUM_MOTORS :: m.wheels[i].start == 0 && m.wheels[i].interval == ONE;
    hide InRange, SlewTo, SetVoltage;
    NothingMore(m);
    hide Run, AllDefined;
    OneMore(s, b, []);
    OneMore(PowerOn(), a, [b]);
    assert [b] + [] == [b] && [a] + [b] == [a, b];
    DirectCoasts(m, TIMEOUT);
    OnDirectRamp(Idle(m, TIMEOUT), m, TIMEOUT);
  }

  lemma RampTo100()
    ensures SlewDefined(PowerOn(), [100, 100, 100])
    ensures var s := SlewTo(PowerOn(), [100, 100, 100]);
            && InRange(s) && s.steps == 100 && s.count == 0
            && forall i | 0 <= i < NUM_MOTORS :: s.wheels[i].start == 0 && s.wheels[i].interval == ONE
  {
    RunKeeps(PowerOn(), []);
    assert Speeds(PowerOn().wheels) == [0, 0, 0] == Finals(PowerOn().wheels);
    FullRampBegins(PowerOn(), 0, 100, 1);
    hide SlewTo, InRange;
    SlewToKeeps(PowerOn(), [100, 100, 100]);
  }

  lemma NothingMore(m: Motors)
    ensures AllDefined(m, []) && Run(m, []) == m
  {
  }

  lemma OneMore(m: Motors, c: Command, cs: seq<Command>)
    requires Defined(m, c) && AllDefined(Next(m, c), cs)
    ensures AllDefined(m, [c] + cs) && Run(m, [c] + cs) == Run(Next(m, c), cs)
  {
    hide Defined, Next;
    assert ([c] + cs)[1..] == cs;
  }

  lemma OnDirectRamp(n: Motors, m: Motors, k: nat)
    requires m.count == 0 && 0 < k <= m.steps
    requires forall i | 0 <= i < NUM_MOTORS :: m.wheels[i].start == 0 && m.wheels[i].interval == ONE
    requires SpeedsAre(n.wheels, m.wheels, m.steps, m.count, k)
    ensures Speeds(n.wheels) == [k, k, k]
  {
    forall i | 0 <= i < NUM_MOTORS ensures PositionAt(m.wheels[i], k) / ONE == k {
      assert PositionAt(m.wheels[i], k) == k * ONE;
    }
  }

  // While the ramp lasts the wheels follow it, whatever is set by hand or by the timeout.
  lemma {:induction false} DirectCoasts(m: Motors, k: nat)
    requires InRange(m) && m.voltageMode && 0 < k && m.count + k <= m.steps + 1
    ensures IdleDefined(m, k) && SpeedsAre(Idle(m, k).wheels, m.wheels, m.steps, m.count, k)
    decreases k
  {
    DirectEvent(m);
    DirectRamp(m, k);
    if k == 1 {
      assert Idle(m, 1) == Idle(Event(m), 0) == Event(m);
    } else {
      hide InRange, SpeedsAre, Event, EventDefined;
      DirectCoasts(Event(m), k - 1);
    }
  }

  // What is left of the ramp is the same before and after an event.
  lemma DirectRamp(m: Motors, k: nat)
    requires InRange(m) && m.voltageMode && m.count <= m.steps && k > 0
    ensures k == 1 ==> SpeedsAre(Event(m).wheels, m.wheels, m.steps, m.count, 1)
    ensures k > 1 ==>
              forall v: Wheels ::
                SpeedsAre(v, Event(m).wheels, m.steps, m.count + 1, k - 1) ==> SpeedsAre(v, m.wheels, m.steps, m.count, k)
  {
    var t := Timeout(m);
    TimeoutKeeps(m);
    SameRamps(m);
    forall v: Wheels | SpeedsAre(v, Event(m).wheels, m.steps, m.count + 1, k - 1)
      ensures SpeedsAre(v, m.wheels, m.steps, m.count, k)
    {
      SpeedsStep(v, t, k);
      SameAfter(v, t.wheels, m.wheels, m.steps, m.count, k);
    }
    if k == 1 {
      assert SpeedsAre(Event(m).wheels, Event(m).wheels, m.steps, m.count + 1, 0);
    }
  }

  lemma SameRamps(m: Motors)
    requires m.voltageMode
    ensures SameRamp(Timeout(m).wheels, m.wheels)
    ensures Timeout(m).steps == m.steps && Timeout(m).count == m.count
  {
  }

  lemma SameAfter(v: Wheels, t: Wheels, w: Wheels, steps: nat, count: nat, k: nat)
    requires SameRamp(t, w) && count <= steps && k > 0
    ensures SpeedsAre(v, t, steps, count, k) ==> SpeedsAre(v, w, steps, count, k)
  {
  }

  /* Setting all three wheels to zero by hand. */

  function Halted(m: Motors): Motors {
    SetWheel(SetWheel(SetWheel(m, 0, 0), 1, 0), 2, 0)
  }

  // The pending ramp is at zero from the next event on.
  predicate RampAtZero(m: Motors) {
    forall i | 0 <= i < NUM_MOTORS ::
      SpeedAfter(m.wheels[i], m.steps, m.count, 1) == 0 && m.wheels[i].final == 0
  }

  lemma HaltedParts(m: Motors)
    requires InRange(m)
    ensures var h := Halted(m);
            && InRange(h) && h.voltageMode && Stopped(h) && h.steps == m.steps && h.count == m.count
            && SameRamp(h.wheels, m.wheels)
  {
    WheelKeeps(m, 0, 0);
    WheelKeeps(SetWheel(m, 0, 0), 1, 0);
    WheelKeeps(SetWheel(SetWheel(m, 0, 0), 1, 0), 2, 0);
    hide InRange;
  }

  lemma WheelStaysAtZero(w: Wheel, steps: nat, count: nat)
    requires Ramping(w, steps, count) && count < steps && w.final == 0
    requires SpeedAfter(w, steps, count, 1) == 0
    ensures SpeedAfter(w, steps, count + 1, 1) == 0
  {
    if count + 1 < steps {
      RampArithmetic(w.final - w.start, steps, 1);
      RampArithmetic(w.final - w.start, steps, count + 2);
      RampArithmetic(w.final - w.start, steps, count + 1);
      hide TruncDiv;
      assert PositionAt(w, count + 2) == PositionAt(w, count + 1) + w.interval;
    }
  }

  lemma SpeedAfterOfRamp(v: Wheel, w: Wheel, steps: nat, count: nat)
    requires v.final == w.final && v.start == w.start && v.interval == w.interval && count <= steps
    ensures SpeedAfter(v, steps, count, 1) == SpeedAfter(w, steps, count, 1)
  {
  }

  lemma RampStaysAtZero(m: Motors)
    requires InRange(m) && m.voltageMode && m.count < m.steps && RampAtZero(m)
    ensures RampAtZero(Event(m))
  {
    DirectEvent(m);
    EventSameRamp(m);
    forall i | 0 <= i < NUM_MOTORS
      ensures SpeedAfter(Event(m).wheels[i], m.steps, m.count + 1, 1) == 0 && Event(m).wheels[i].final == 0
    {
      var w := m.wheels[i];
      assert Ramping(w, m.steps, m.count);
      hide Event, Ramping, SpeedAfter, InRange;
      WheelStaysAtZero(w, m.steps, m.count);
      SpeedAfterOfRamp(Event(m).wheels[i], w, m.steps, m.count + 1);
    }
  }

  lemma EventSameRamp(m: Motors)
    requires EventDefined(m) && m.voltageMode
    ensures SameRamp(Event(m).wheels, m.wheels)
  {
    SameRamps(m);
    hide Timeout, ToInt8;
  }

  lemma {:induction false} HaltStays(m: Motors, n: nat)
    requires InRange(m) && m.voltageMode && Stopped(m)
    requires m.count > m.steps || RampAtZero(m)
    ensures IdleDefined(m, n) && Stopped(Idle(m, n))
    decreases n
  {
    if m.count > m.steps {
      DirectTimeout(m, n);
    } else if n > 0 {
      DirectEvent(m);
      DirectRamp(m, 1);
      ZeroSpeeds(Event(m).wheels);
      if m.count < m.steps {
        RampStaysAtZero(m);
      }
      hide InRange, Event, EventDefined, RampAtZero;
      HaltStays(Event(m), n - 1);
    }
  }

  lemma {:induction false} HaltMustHold(m: Motors)
    requires InRange(m) && m.voltageMode && m.count <= m.steps
    requires forall n: nat :: IdleDefined(m, n) && Stopped(Idle(m, n))
    ensures RampAtZero(m)
  {
    var k := m.steps + 1 - m.count;
    assert Stopped(Idle(m, 1)) && Stopped(Idle(m, k));
    DirectCoasts(m, 1);
    DirectCoasts(m, k);
    ZeroSpeeds(Idle(m, 1).wheels);
    ZeroSpeeds(Idle(m, k).wheels);
    hide Idle, IdleDefined, InRange;
  }

  // No event, with nothing commanded, makes a wheel turn.
  ghost predicate StaysStopped(m: Motors) {
    forall n: nat :: IdleDefined(m, n) && Stopped(Idle(m, n))
  }

  lemma StaysStoppedIff(m: Motors)
    requires InRange(m) && m.voltageMode && Stopped(m)
    ensures StaysStopped(m) <==> m.count > m.steps || RampAtZero(m)
  {
    hide InRange, RampAtZero, Idle, IdleDefined, Stopped;
    if m.count > m.steps || RampAtZero(m) {
      forall n: nat ensures IdleDefined(m, n) && Stopped(Idle(m, n)) {
        HaltStays(m, n);
      }
    } else if StaysStopped(m) {
      HaltMustHold(m);
    }
  }

  // The wheels then stand still for good, if nothing more is commanded, exactly if no ramp is
  // pending, or one that is at zero from the next event on.
  lemma HaltHoldsIff(m: Motors)
    requires InRange(m)
    ensures StaysStopped(Halted(m)) <==> m.count > m.steps || RampAtZero(m)
  {
    HaltedParts(m);
    hide Halted, InRange, StaysStopped, Stopped;
    StaysStoppedIff(Halted(m));
    assert m.count <= m.steps ==> (RampAtZero(Halted(m)) <==> RampAtZero(m));
  }

  // The wheels turn again at the next event, when the ramp to 100 is pending.
  lemma HaltOverriddenByRamp()
    ensures var cs := [SlewCommand([100, 100, 100]), WheelCommand(0, 0), WheelCommand(1, 0), WheelCommand(2, 0)];
            && AllDefined(PowerOn(), cs)
            && var m := Run(PowerOn(), cs);
            && Stopped(m) && EventDefined(m) && Speeds(Event(m).wheels) == [1, 1, 1]
  {
    var up: Target := [100, 100, 100];
    var a, x, y, z := SlewCommand(up), WheelCommand(0, 0), WheelCommand(1, 0), WheelCommand(2, 0);
    RampTo100();
    var s := SlewTo(PowerOn(), up);
    HaltedParts(s);
    var h := Halted(s);
    HaltByHand(s);
    assert h.steps == 100 && h.count == 0;
    assert forall i | 0 <= i < NUM_MOTORS :: h.wheels[i].start == 0 && h.wheels[i].interval == ONE;
    hide InRange, SlewTo, Halted, Run, AllDefined;
    OneMore(PowerOn(), a, [x, y, z]);
    assert [a] + [x, y, z] == [a, x, y, z];
    DirectEvent(h);
    DirectRamp(h, 1);
    OnDirectRamp(Event(h), h, 1);
  }

  lemma HaltByHand(m: Motors)
    ensures var cs := [WheelCommand(0, 0), WheelCommand(1, 0), WheelCommand(2, 0)];
            AllDefined(m, cs) && Run(m, cs) == Halted(m)
  {
    hide SetWheel;
    var x, y, z := WheelCommand(0, 0), WheelCommand(1, 0), WheelCommand(2, 0);
    var m1, m2, m3 := SetWheel(m, 0, 0), SetWheel(SetWheel(m, 0, 0), 1, 0), Halted(m);
    assert [x, y, z][1..] == [y, z] && [y, z][1..] == [z] && [z][1..] == [];
    assert AllDefined(m3, []) && AllDefined(m2, [z]) && AllDefined(m1, [y, z]);
    assert Run(m2, [z]) == m3 && Run(m1, [y, z]) == m3;
  }

  // Without voltage commands the robot is never stuck.
  lemma SlewCommandsNeverStick(cs: seq<Command>)
    requires AllDefined(PowerOn(), cs) && forall c | c in cs :: !Direct(c)
    ensures !Stuck(Run(PowerOn(), cs))
  {
    RunKeeps(PowerOn(), cs);
    var m := Run(PowerOn(), cs);
    hide Run, InRange;
    if m.count > m.steps {
      assert Speeds(m.wheels) == Finals(m.wheels);
    }
  }

  // It can be with one: drive by voltage, then command the speed zero it already slewed to.
  lemma StuckIsReachable()
    ensures var cs := [VoltageCommand([50, 50, 50]), SlewCommand(STOP)];
            AllDefined(PowerOn(), cs) && Stuck(Run(PowerOn(), cs)) && !Run(PowerOn(), cs).voltageMode
  {
    var v, z := VoltageCommand([50, 50, 50]), SlewCommand(STOP);
    var m0 := PowerOn();
    var m1 := Next(m0, v);
    assert Finals(m1.wheels) == STOP == Clamped(STOP);
    assert Speeds(m1.wheels)[0] == 50;
    assert Defined(m1, z);
    var m2 := Next(m1, z);
    assert [v, z][1..] == [z] && [z][1..] == [];
    assert AllDefined(m2, []) && AllDefined(m1, [z]) && Run(m1, [z]) == m2;
  }

  /* The division by zero does occur. */

  lemma FullRate(w: Wheel, to: int, dir: int)
    requires dir * Abs(to - w.speed) == to - w.speed != 0
    ensures var b := w.Begin(to, Abs(to - w.speed));
            b.interval == dir * ONE && b.start == w.speed && b.speed == w.speed && b.final == to
  {
    var steps := Abs(to - w.speed);
    QuotientExact(steps * ONE, steps, ONE);
    assert (to - w.speed) * ONE == dir * (steps * ONE);
  }

  // All three wheels turn alike, one way at the full rate.
  predicate FullRamp(m: Motors, from: int, to: int, dir: int) {
    && !m.voltageMode && m.count == 0 == m.timeout && m.steps == Abs(to - from)
    && Finals(m.wheels) == [to, to, to]
    && (forall i | 0 <= i < NUM_MOTORS ::
          m.wheels[i].start == from && m.wheels[i].final == to && m.wheels[i].interval == dir * ONE)
  }

  lemma FullRampBegins(m: Motors, from: int, to: int, dir: int)
    requires Speeds(m.wheels) == [from, from, from] && Finals(m.wheels) != [to, to, to]
    requires Abs(from) <= MAX_SPEED && Abs(to) <= MAX_SPEED && dir * Abs(to - from) == to - from != 0
    ensures SlewDefined(m, [to, to, to]) && FullRamp(SlewTo(m, [to, to, to]), from, to, dir)
  {
    var w := m.wheels;
    assert Speeds(w)[0] == w[0].speed && Speeds(w)[1] == w[1].speed && Speeds(w)[2] == w[2].speed;
    assert Clamped([to, to, to]) == [to, to, to];
    FullRate(w[0], to, dir);
    FullRate(w[1], to, dir);
    FullRate(w[2], to, dir);
    hide TruncDiv;
  }

  lemma OnFullRamp(m: Motors, n: Motors, from: int, to: int, dir: int, k: nat)
    requires FullRamp(m, from, to, dir) && 0 < k <= m.steps
    requires SpeedsAre(n.wheels, m.wheels, m.steps, m.count, k)
    ensures Speeds(n.wheels) == [from + dir * k, from + dir * k, from + dir * k]
  {
    forall i | 0 <= i < NUM_MOTORS
      ensures PositionAt(m.wheels[i], k) / ONE == from + dir * k
    {
      assert PositionAt(m.wheels[i], k) == (from + dir * k) * ONE;
    }
  }

  // All wheels at one speed, which is the target.
  predicate AllAt(m: Motors, s: int) {
    Speeds(m.wheels) == [s, s, s] == Finals(m.wheels)
  }

  lemma AlikeRamp(m: Motors, from: int, to: int, dir: int, k: nat)
    requires InRange(m) && AllAt(m, from)
    requires Abs(from) <= MAX_SPEED && Abs(to) <= MAX_SPEED && dir * Abs(to - from) == to - from != 0
    requires 0 < k <= Abs(to - from) && k < TIMEOUT
    ensures SlewDefined(m, [to, to, to]) && InRange(SlewTo(m, [to, to, to]))
    ensures var s := SlewTo(m, [to, to, to]);
            && !s.voltageMode && s.timeout == 0 && s.steps == Abs(to - from)
            && IdleDefined(s, k) && InRange(Idle(s, k)) && !Idle(s, k).voltageMode && Idle(s, k).timeout == k
            && Speeds(Idle(s, k).wheels) == [from + dir * k, from + dir * k, from + dir * k]
            && Finals(Idle(s, k).wheels) == [to, to, to]
  {
    FullRampBegins(m, from, to, dir);
    var s := SlewTo(m, [to, to, to]);
    SlewToKeeps(m, [to, to, to]);
    hide SlewTo, FullRamp, SpeedsAre, InRange, Event, Idle, IdleDefined, EventDefined, Finals, Speeds, SlewDefined;
    FullRampParts(s, from, to, dir);
    Coasts(s, k);
    OnFullRamp(s, Idle(s, k), from, to, dir, k);
  }

  lemma PowerOnAtRest()
    ensures InRange(PowerOn()) && AllAt(PowerOn(), 0)
  {
  }

  lemma DividesComingFrom49(m: Motors)
    requires InRange(m) && AllAt(m, 49)
    ensures var down: Target := [-51, -51, -51];
            && SlewDefined(m, down) && WillDivideByZero(SlewTo(m, down))
            && IdleDefined(SlewTo(m, down), 49) && !EventDefined(Idle(SlewTo(m, down), 49))
  {
    hide InRange, SlewTo, Idle, IdleDefined, EventDefined, WillDivideByZero, SlewDefined, AllAt;
    AlikeRamp(m, 49, -51, -1, 49);
    var t := SlewTo(m, [-51, -51, -51]);
    TimeoutDefinedIff(Idle(t, 49));
    WillDivide(t);
  }

  // Slewing to 49 and, 49 events later, to -51, has all wheels at zero, on their way through,
  // when the timeout comes.
  lemma TimeoutCanDivideByZero()
    ensures var up: Target, down: Target := [49, 49, 49], [-51, -51, -51];
            && SlewDefined(PowerOn(), up) && IdleDefined(SlewTo(PowerOn(), up), 49)
            && var m := Idle(SlewTo(PowerOn(), up), 49);
            && SlewDefined(m, down) && WillDivideByZero(SlewTo(m, down))
            && IdleDefined(SlewTo(m, down), 49) && !EventDefined(Idle(SlewTo(m, down), 49))
  {
    hide InRange, SlewTo, Idle, IdleDefined, EventDefined, WillDivideByZero, SlewDefined, PowerOn;
    PowerOnAtRest();
    AlikeRamp(PowerOn(), 0, 49, 1, 49);
    DividesComingFrom49(Idle(SlewTo(PowerOn(), [49, 49, 49]), 49));
  }

  lemma FullRampParts(m: Motors, from: int, to: int, dir: int)
    requires FullRamp(m, from, to, dir)
    ensures !m.voltageMode && m.count == 0 == m.timeout && m.steps == Abs(to - from)
    ensures Finals(m.wheels) == [to, to, to]
  {
  }

  lemma WillDivide(m: Motors)
    requires InRange(m) && !m.voltageMode && m.timeout == 0
    requires IdleDefined(m, TIMEOUT - 1) && !EventDefined(Idle(m, TIMEOUT - 1))
    ensures WillDivideByZero(m)
  {
    hide InRange, Event, EventDefined, Idle, WillDivideByZero;
    IdleInTurn(m, TIMEOUT - 1, 1);
    IdleDefinedIff(m, TIMEOUT);
  }
}
