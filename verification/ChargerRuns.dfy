/**
  What holds over every run of the charger: ticks with any sampling flags, voltages and
  charger reports (so unplugging and replugging at any time), and power cycles.
*/
module ChargerRuns {
  import opened Words
  import opened Charger

  datatype Step = Tick(voltageOk: bool, chargeOk: bool, batOk: bool, input: Input) | PowerCycle

  function Next(s: State, step: Step): State {
    match step
    case Tick(v, c, b, input) =>
      ChargeStep(s.(flags := s.flags.(voltageOk := v, chargeOk := c, batOk := b)), input)
    case PowerCycle => PowerUp(s.eeprom, s.log)
  }

  function Run(s: State, steps: seq<Step>): State {
    if steps == [] then s else Next(Run(s, steps[..|steps| - 1]), steps[|steps| - 1])
  }

  /* The checkpoint: which phase a power cycle resumes from. */

  // The saved phase for each running phase: itself, or the one before it on the same battery.
  function Checkpoint(phase: uint8): uint8
    requires 1 <= phase <= 10
  {
    match phase
    case 2 => 1
    case 4 => 3
    case 6 => 5
    case 9 => 8
    case _ => phase
  }

  const CHECKPOINTS: set<uint8> := {1, 3, 5, 7, 8, 10}

  // The phase whose failure a code records, as its checkpoint.
  function FailedAt(code: uint8): uint8 {
    if code in {211, 212, 213} then 1
    else if code in {214, 215} then 3
    else if code in {221, 223} then 5
    else if code in {224, 225} then 7
    else if code in {231, 232, 233} then 8
    else if code in {234, 235} then 10
    else 0
  }

  predicate Checkpointed(s: State) {
    if s.ram == 0 || s.ram == 11 then s.eeprom == 0
    else if 1 <= s.ram <= 10 then s.eeprom == Checkpoint(s.ram)
    else if s.ram == CHARGING_INTERRUPTED then s.eeprom in CHECKPOINTS
    else s.eeprom == FailedAt(s.ram) != 0
  }

  /* The shutdown pins. */

  predicate PinsFit(s: State) {
    && s.pins.port == ALL_CLEAR
    && s.pins.AtMostOneOn()
    && (0 < s.ram < 11 || s.ram == CHARGING_INTERRUPTED ==>
          match s.eeprom
          case 1 => s.pins.OnlyMayBeOn(B40)
          case 3 => s.pins.OnlyMayBeOn(B40)
          case 5 => !s.pins.Enabled(B280) && (s.ram == 6 ==> s.pins.OnlyMayBeOn(B160))
          case 7 => s.pins.OnlyMayBeOn(B160)
          case 8 => !s.pins.Enabled(B40) && (s.ram == 9 ==> s.pins.OnlyMayBeOn(B280))
          case 10 => s.pins.OnlyMayBeOn(B280)
          case _ => true)
  }

  predicate EveryWriteSafe(writes: seq<Pins>) {
    forall i | 0 <= i < |writes| :: writes[i].AtMostOneOn()
  }

  predicate Safe(s: State) {
    Checkpointed(s) && PinsFit(s) && EveryWriteSafe(s.writes)
  }

  lemma SafeConcat(a: seq<Pins>, b: seq<Pins>)
    requires EveryWriteSafe(a) && EveryWriteSafe(b)
    ensures EveryWriteSafe(a + b)
  {
  }

  // Turning a charger off is safe at any time; turning one on, when no other is on.
  lemma OneOpSafe(pins: Pins, op: PortOp)
    requires pins.port == ALL_CLEAR && pins.AtMostOneOn()
    requires op.Enable? ==> pins.OnlyMayBeOn(op.b)
    ensures EveryWriteSafe(AllWrites(pins, [op]))
    ensures After(pins, [op]) == Pins(pins.ddr.Set(op.b, op.Disable?), ALL_CLEAR)
    ensures After(pins, [op]).AtMostOneOn()
  {
    OneOp(pins, op);
    hide After, AllWrites;
  }

  lemma TwoOpsSafe(pins: Pins, off: Battery, op: PortOp)
    requires pins.port == ALL_CLEAR && pins.AtMostOneOn()
    requires op.Enable? ==> After(pins, [Disable(off)]).OnlyMayBeOn(op.b)
    ensures EveryWriteSafe(AllWrites(pins, [Disable(off), op]))
    ensures After(pins, [Disable(off), op]) == Pins(pins.ddr.Set(off, true).Set(op.b, op.Disable?), ALL_CLEAR)
    ensures After(pins, [Disable(off), op]).AtMostOneOn()
  {
    OneOpSafe(pins, Disable(off));
    var mid := After(pins, [Disable(off)]);
    OneOpSafe(mid, op);
    hide After, AllWrites;
    AfterConcat(pins, [Disable(off)], [op]);
    assert [Disable(off)] + [op] == [Disable(off), op];
    SafeConcat(AllWrites(pins, [Disable(off)]), AllWrites(mid, [op]));
  }

  lemma AllOffSafe(pins: Pins)
    requires pins.port == ALL_CLEAR && pins.AtMostOneOn()
    ensures EveryWriteSafe(AllWrites(pins, ALL_OFF)) && After(pins, ALL_OFF) == Pins(ALL_SET, ALL_CLEAR)
  {
    var two := [Disable(B40), Disable(B160)];
    TwoOpsSafe(pins, B40, Disable(B160));
    OneOpSafe(After(pins, two), Disable(B280));
    hide After, AllWrites;
    AfterConcat(pins, two, [Disable(B280)]);
    assert ALL_OFF == two + [Disable(B280)];
    SafeConcat(AllWrites(pins, two), AllWrites(After(pins, two), [Disable(B280)]));
  }

  lemma PhaseOpsSafe(s: State)
    requires Safe(s) && s.ram != CHARGING_INTERRUPTED
    ensures EveryWriteSafe(AllWrites(s.pins, PortOps(s.ram)))
    ensures var after := After(s.pins, PortOps(s.ram));
            && after.port == ALL_CLEAR
            && if 1 <= s.ram <= 10 then after.OnlyMayBeOn(BatteryOf(s.ram)) else after == Pins(ALL_SET, ALL_CLEAR)
  {
    if s.ram in {1, 2, 3, 4, 7, 10} {
      OneOpSafe(s.pins, Enable(BatteryOf(s.ram)));
    } else if s.ram in {5, 6} {
      OneOpSafe(s.pins, Disable(B40));
      TwoOpsSafe(s.pins, B40, Enable(B160));
    } else if s.ram in {8, 9} {
      OneOpSafe(s.pins, Disable(B160));
      TwoOpsSafe(s.pins, B160, Enable(B280));
    } else {
      AllOffSafe(s.pins);
    }
  }

  lemma PolledSafe(t: State, stat: uint8)
    requires Polls(t.ram) && Checkpointed(t) && EveryWriteSafe(t.writes)
    requires t.pins.port == ALL_CLEAR && t.pins.OnlyMayBeOn(BatteryOf(t.ram))
    ensures Safe(Polled(t, stat))
  {
    hide EveryWriteSafe;
  }

  lemma PhaseSafe(s: State, input: Input)
    requires Safe(s) && s.ram != CHARGING_INTERRUPTED
    ensures Safe(Phase(s, input))
  {
    hide After, AllWrites, PortOps, EveryWriteSafe;
    PhaseOpsSafe(s);
    var ops := PortOps(s.ram);
    var t := s.Apply(ops);
    SafeConcat(s.writes, AllWrites(s.pins, ops));
    if s.ram == 4 && input.bat280v < MIN_BAT_VOLTAGE {
      TwoOpsSafe(t.pins, B40, Disable(B160));
      SafeConcat(t.writes, AllWrites(t.pins, [Disable(B40), Disable(B160)]));
    } else if Polls(s.ram) {
      PolledSafe(t, input.stat);
      hide Polled, Safe;
      assert Phase(s, input) == Polled(t, input.stat);
    }
  }

  lemma ResumedSafe(s: State, input: Input)
    requires Safe(s)
    ensures Safe(Resumed(s, input)) && Resumed(s, input).ram != CHARGING_INTERRUPTED
  {
  }

  lemma NextSafe(s: State, step: Step)
    requires Safe(s)
    ensures Safe(Next(s, step))
  {
    match step
    case Tick(v, c, b, input) =>
      var t := s.(flags := s.flags.(voltageOk := v, chargeOk := c, batOk := b));
      hide Phase;
      if c {
        ResumedSafe(t, input);
        PhaseSafe(Resumed(t, input), input);
      }
    case PowerCycle =>
  }

  // The EEPROM contents a power-up may find.
  predicate Restorable(eeprom: uint8) {
    eeprom in CHECKPOINTS || eeprom == 0 || eeprom == ERASED
  }

  lemma {:induction false} RunSafe(eeprom: uint8, log: seq<Event>, steps: seq<Step>)
    requires Restorable(eeprom)
    ensures Safe(Run(PowerUp(eeprom, log), steps))
    decreases |steps|
  {
    if steps != [] {
      var n := |steps| - 1;
      RunSafe(eeprom, log, steps[..n]);
      NextSafe(Run(PowerUp(eeprom, log), steps[..n]), steps[n]);
    }
  }

  // After every single port write of every run, at most one charger is on.
  lemma ChargerExclusion(eeprom: uint8, log: seq<Event>, steps: seq<Step>)
    requires Restorable(eeprom)
    ensures var s := Run(PowerUp(eeprom, log), steps);
            && s.pins.AtMostOneOn()
            && forall i | 0 <= i < |s.writes| :: s.writes[i].AtMostOneOn()
  {
    RunSafe(eeprom, log, steps);
  }

  // Throughout, the EEPROM names the running phase or its immediate predecessor on the same
  // battery, so a power cycle resumes there.
  lemma CheckpointInvariant(eeprom: uint8, log: seq<Event>, steps: seq<Step>)
    requires Restorable(eeprom)
    ensures var s := Run(PowerUp(eeprom, log), steps);
            && (1 <= s.ram <= 10 ==>
                  && (s.eeprom == s.ram || s.eeprom == s.ram - 1)
                  && s.eeprom in CHECKPOINTS && BatteryOf(s.eeprom) == BatteryOf(s.ram)
                  && Next(s, PowerCycle).ram == s.eeprom)
            && (s.ram == 0 || s.ram == 11 ==> s.eeprom == 0)
  {
    RunSafe(eeprom, log, steps);
  }

  // Unplugging and replugging a charged-enough robot resumes like a power cycle does.
  lemma ReplugResumesCheckpoint(s: State, v: bool, b: bool, out: Input, back: Input)
    requires Safe(s) && 0 < s.ram < 11 && back.bat40v >= MIN_BAT_CHARGE_VOLTAGE
    ensures var t := Next(Next(s, Tick(v, false, b, out)), Tick(v, true, b, back));
            t == Next(Next(s, Tick(v, false, b, out)).(ram := s.eeprom), Tick(v, true, b, back))
  {
  }

  /* History: which reports led to the end of charging. */

  // What must have been reported, in this order.
  const MILESTONES: seq<Event> := [
    Reported(B40, 2), Reported(B40, 3), Reported(B160, 3), Reported(B280, 2), Reported(B280, 3)]

  // How many milestones have been seen, in order, since charging last started.
  function Progress(log: seq<Event>): (p: nat)
    ensures p <= |MILESTONES|
  {
    if log == [] then 0 else
      var p, e := Progress(log[..|log| - 1]), log[|log| - 1];
      if e == Started then 0
      else if p < |MILESTONES| && e == MILESTONES[p] then p + 1
      else p
  }

  // What that number means: the positions of the reports in the history.
  ghost predicate Witnesses(log: seq<Event>, at: seq<nat>) {
    && |at| <= |MILESTONES|
    && (forall j | 0 <= j < |at| :: at[j] < |log| && log[at[j]] == MILESTONES[j])
    && (forall j, k | 0 <= j < k < |at| :: at[j] < at[k])
    && (forall i | 0 <= i < |log| && |at| > 0 && at[0] <= i :: log[i] != Started)
  }

  lemma {:induction false} ProgressWitnesses(log: seq<Event>) returns (at: seq<nat>)
    ensures |at| == Progress(log) && Witnesses(log, at)
    decreases |log|
  {
    if log == [] {
      at := [];
    } else {
      var n := |log| - 1;
      at := ProgressWitnesses(log[..n]);
      var e := log[n];
      assert log[..n] + [e] == log;
      if e == Started {
        at := [];
      } else {
        WitnessesStay(log[..n], e, at);
        hide Witnesses;
        if |at| < |MILESTONES| && e == MILESTONES[|at|] {
          OneMoreWitness(log[..n], e, at);
          at := at + [n];
        }
      }
    }
  }

  lemma WitnessesStay(log: seq<Event>, e: Event, at: seq<nat>)
    requires Witnesses(log, at) && e != Started
    ensures Witnesses(log + [e], at)
  {
  }

  lemma OneMoreWitness(log: seq<Event>, e: Event, at: seq<nat>)
    requires Witnesses(log, at) && |at| < |MILESTONES| && e == MILESTONES[|at|]
    ensures Witnesses(log + [e], at + [|log|])
  {
  }

  // The milestones a checkpoint vouches for.
  function Earned(eeprom: uint8): nat {
    match eeprom
    case 3 => 1
    case 5 => 2
    case 7 => 2
    case 8 => 3
    case 10 => 4
    case _ => 0
  }

  predicate HistoryFits(s: State) {
    Progress(s.log) >= (if s.ram == 11 then 5 else Earned(s.eeprom))
  }

  lemma ReportProgress(log: seq<Event>, b: Battery, stat: uint8)
    ensures var p, e := Progress(log), Reported(b, stat);
            Progress(log + [e]) == if p < |MILESTONES| && e == MILESTONES[p] then p + 1 else p
  {
    var e := Reported(b, stat);
    assert (log + [e])[..|log|] == log;
  }

  lemma PolledHistory(s: State, stat: uint8)
    requires Polls(s.ram) && Checkpointed(s) && HistoryFits(s)
    ensures HistoryFits(Polled(s, stat))
  {
    ReportProgress(s.log, BatteryOf(s.ram), stat);
    hide Progress, Blame, AllWrites, After;
  }

  lemma StartedHistory(log: seq<Event>)
    ensures Progress(log + [Started]) == 0
  {
    assert (log + [Started])[|log|] == Started;
  }

  lemma PhaseHistory(s: State, input: Input)
    requires Checkpointed(s) && HistoryFits(s)
    ensures HistoryFits(Phase(s, input))
  {
    hide AllWrites, After, PortOps, Progress, Polled;
    var t := s.Apply(PortOps(s.ram));
    if Polls(s.ram) && !(s.ram == 4 && input.bat280v < MIN_BAT_VOLTAGE) {
      PolledHistory(t, input.stat);
      assert Phase(s, input) == Polled(t, input.stat);
    } else {
      StartedHistory(s.log);
    }
  }

  lemma NextHistory(s: State, step: Step)
    requires Checkpointed(s) && HistoryFits(s)
    ensures HistoryFits(Next(s, step))
  {
    hide Phase, Progress;
    match step
    case Tick(v, c, b, input) =>
      var t := s.(flags := s.flags.(voltageOk := v, chargeOk := c, batOk := b));
      if c {
        PhaseHistory(Resumed(t, input), input);
      }
    case PowerCycle =>
  }

  lemma {:induction false} RunHistory(steps: seq<Step>)
    ensures HistoryFits(Run(PowerUp(FUEL_STATE0, []), steps))
    decreases |steps|
  {
    if steps != [] {
      var n := |steps| - 1;
      RunHistory(steps[..n]);
      RunSafe(FUEL_STATE0, [], steps[..n]);
      NextHistory(Run(PowerUp(FUEL_STATE0, []), steps[..n]), steps[n]);
    }
  }

  // From an empty EEPROM, charging completes only after charger 40 reported top-off and
  // then shutdown, charger 160 shutdown, and charger 280 top-off and then shutdown, in that
  // order and without a restart in between, whatever power cycles and unplugs intervened.
  lemma CompleteOnlyAfterAllChargers(steps: seq<Step>) returns (at: seq<nat>)
    ensures var s := Run(PowerUp(FUEL_STATE0, []), steps);
            s.ram == FUEL_STATE11 ==> |at| == 5 && Witnesses(s.log, at)
  {
    var s := Run(PowerUp(FUEL_STATE0, []), steps);
    RunHistory(steps);
    at := ProgressWitnesses(s.log);
  }

  /* The report itself: two samples of one status pin. */

  // First sample taken with the pull switch released, second with it driven high.
  function Status(first: bool, second: bool): uint8 {
    (if first then 1 else 0) + (if second then 2 else 0)
  }

  // Real reports never reach the codes for an impossible status.
  lemma ImpossibleStatusCodesUnused(phase: uint8, first: bool, second: bool)
    requires Polls(phase)
    ensures Judge(phase, Status(first, second)).Fail? ==>
              Judge(phase, Status(first, second)).code in {211, 212, 214, 221, 224, 231, 232, 234}
  {
  }
}
