/**
  What the charger does do: which charger is on, when charging starts, how it gets to its end,
  and what a failure is put down to.
*/
module ChargerProgress {
  import opened Words
  import opened Charger
  import opened ChargerRuns

  // The phase that a tick with a charger supply carries out.
  function Executed(s: State, input: Input): uint8 {
    if s.ram != 201 then s.ram else if input.bat40v < 160 then 0 else s.eeprom
  }

  // Battery 40 is charged in phases 1 to 4, 160 in 5 to 7, 280 in 8 to 10; phase 4 gives up
  // when battery 280 turns out to be missing.
  predicate MeantOn(b: Battery, phase: uint8, bat280v: uint8) {
    match b
    case B40 => 1 <= phase <= 4 && !(phase == 4 && bat280v < 80)
    case B160 => 5 <= phase <= 7
    case B280 => 8 <= phase <= 10
  }

  /* The chargers. */

  lemma PhaseOpsOn(s: State)
    requires Safe(s) && s.ram != CHARGING_INTERRUPTED
    ensures var after := After(s.pins, PortOps(s.ram));
            && after.port == ALL_CLEAR
            && (1 <= s.ram <= 4 ==> after.Enabled(B40) && after.OnlyMayBeOn(B40))
            && (5 <= s.ram <= 7 ==> after.Enabled(B160) && after.OnlyMayBeOn(B160))
            && (8 <= s.ram <= 10 ==> after.Enabled(B280) && after.OnlyMayBeOn(B280))
            && (s.ram == 0 || s.ram > 10 ==> !after.Enabled(B40) && !after.Enabled(B160) && !after.Enabled(B280))
  {
    PhaseOpsSafe(s);
    if s.ram in {1, 2, 3, 4, 7, 10} {
      OneOpSafe(s.pins, Enable(BatteryOf(s.ram)));
    } else if s.ram in {5, 6} {
      OneOpSafe(s.pins, Disable(B40));
      TwoOpsSafe(s.pins, B40, Enable(B160));
    } else if s.ram in {8, 9} {
      OneOpSafe(s.pins, Disable(B160));
      TwoOpsSafe(s.pins, B160, Enable(B280));
    }
  }

  lemma PhaseTurnsOn(s: State, input: Input, b: Battery)
    requires Safe(s) && s.ram != CHARGING_INTERRUPTED
    ensures Phase(s, input).pins.Enabled(b) <==> MeantOn(b, s.ram, input.bat280v)
  {
    PhaseOpsOn(s);
    hide After, AllWrites, PortOps, Safe, Judge, Blame;
    var t := s.Apply(PortOps(s.ram));
    if s.ram == 4 && input.bat280v < MIN_BAT_VOLTAGE {
      TwoOpsSafe(t.pins, B40, Disable(B160));
    }
  }

  // In every run, after a tick with a supply exactly the charger of the executed phase is on.
  lemma ChargerOnIff(eeprom: uint8, log: seq<Event>, steps: seq<Step>, v: bool, bok: bool, input: Input, b: Battery)
    requires Restorable(eeprom)
    ensures var s := Run(PowerUp(eeprom, log), steps);
            var t := Next(s, Tick(v, true, bok, input));
            t.pins.Enabled(b) <==> MeantOn(b, Executed(s, input), input.bat280v)
  {
    RunSafe(eeprom, log, steps);
    var s := Run(PowerUp(eeprom, log), steps);
    hide Run;
    var t := s.(flags := s.flags.(voltageOk := v, chargeOk := true, batOk := bok));
    ResumedSafe(t, input);
    hide Phase, MeantOn;
    PhaseTurnsOn(Resumed(t, input), input, b);
  }

  // Without a supply the pins are left as they are.
  lemma UnpluggedKeepsPins(s: State, v: bool, bok: bool, input: Input)
    ensures Next(s, Tick(v, false, bok, input)).pins == s.pins
  {
  }

  /* Starting. */

  // Charging starts when all batteries are there, and they are out of balance, or battery 40
  // is low and charging not disabled; disabling only counts while all are above 14.5 volts.
  predicate Starts(bok: bool, input: Input) {
    && input.bat40v >= 80 && input.bat160v >= 80 && input.bat280v >= 80
    && (!bok ||
        (input.bat40v < 160
         && !(input.disableCommand && input.bat40v > 145 && input.bat160v > 145 && input.bat280v > 145)))
  }

  lemma StartsIff(s: State, v: bool, bok: bool, input: Input)
    requires s.ram == 0
    ensures var t := Next(s, Tick(v, true, bok, input));
            t.ram == (if Starts(bok, input) then 1 else 0) && (t.ram == 1 ==> t.eeprom == 1)
  {
    hide After, AllWrites, PortOps;
  }

  // Replugged with battery 40 no longer low enough to be worth saving the phase, it starts
  // all over.
  lemma ReplugStartsOver(s: State, v: bool, bok: bool, input: Input)
    requires s.ram == 201 && input.bat40v < 160
    ensures Next(s, Tick(v, true, bok, input)) == Next(s.(ram := 0, eeprom := 0), Tick(v, true, bok, input))
  {
    hide Phase;
  }

  lemma UnpluggedIff(s: State, v: bool, bok: bool, input: Input)
    ensures var t := Next(s, Tick(v, false, bok, input));
            && t.eeprom == s.eeprom
            && t.ram == (if 1 <= s.ram <= 10 then 201 else if s.ram == 11 then 0 else s.ram)
  {
  }

  /* Getting to the end. */

  // The phases from idle to complete, when charger 160 needs no top-off.
  const PATH: seq<uint8> := [0, 1, 2, 3, 4, 5, 6, 8, 9, 10, 11]

  // The charger of a polled phase is still busy.
  predicate Busy(ram: uint8, stat: uint8) {
    (ram in {2, 4, 6, 9, 10} && stat == 0) || (ram in {4, 10} && stat == 2)
  }

  // It reports what the phase waits for.
  predicate Ready(ram: uint8, stat: uint8) {
    (ram in {2, 9} && stat == 2) || (ram in {4, 6, 10} && stat == 3)
  }

  predicate Helps(s: State, step: Step)
    ensures Helps(s, step) ==> step.Tick?
  {
    && step.Tick? && step.chargeOk
    && step.input.bat40v >= 80 && step.input.bat160v >= 80 && step.input.bat280v >= 80
    && (s.ram == 0 ==> Starts(step.batOk, step.input))
    && (s.ram in {2, 4, 6, 9, 10} ==> Busy(s.ram, step.input.stat) || Ready(s.ram, step.input.stat))
  }

  predicate AllHelp(s: State, steps: seq<Step>) {
    steps == [] ||
      var n := |steps| - 1;
      AllHelp(s, steps[..n]) && Helps(Run(s, steps[..n]), steps[n])
  }

  // The ticks at which no charger is busy.
  function Moves(s: State, steps: seq<Step>): nat
    requires AllHelp(s, steps)
  {
    if steps == [] then 0
    else
      var n := |steps| - 1;
      Moves(s, steps[..n]) + if Busy(Run(s, steps[..n]).ram, steps[n].input.stat) then 0 else 1
  }

  function PhaseAt(i: nat): uint8 {
    if i < 10 then PATH[i] else 11
  }

  lemma OneMove(s: State, step: Step, i: nat)
    requires s.ram == PhaseAt(i) && Helps(s, step)
    ensures Next(s, step).ram == if Busy(s.ram, step.input.stat) then PhaseAt(i) else PhaseAt(i + 1)
  {
    hide After, AllWrites, PortOps, Blame;
  }

  // Every such tick brings charging one phase further, and no other does.
  lemma {:induction false} ChargingProgress(s: State, steps: seq<Step>, i: nat)
    requires s.ram == PhaseAt(i) && AllHelp(s, steps)
    ensures Run(s, steps).ram == PhaseAt(i + Moves(s, steps))
    decreases |steps|
  {
    hide Next, PhaseAt, Busy, Helps, Run, Moves, AllHelp;
    if steps == [] {
      NoTick(s);
    } else {
      var before, last := steps[..|steps| - 1], steps[|steps| - 1];
      LastTick(s, steps);
      ChargingProgress(s, before, i);
      OneMove(Run(s, before), last, i + Moves(s, before));
    }
  }

  lemma NoTick(s: State)
    ensures AllHelp(s, []) && Run(s, []) == s && Moves(s, []) == 0
  {
  }

  lemma LastTick(s: State, steps: seq<Step>)
    requires steps != [] && AllHelp(s, steps)
    ensures var before, last := steps[..|steps| - 1], steps[|steps| - 1];
            && AllHelp(s, before) && Helps(Run(s, before), last)
            && Run(s, steps) == Next(Run(s, before), last)
            && Moves(s, steps)
            == Moves(s, before) + if Busy(Run(s, before).ram, last.input.stat) then 0 else 1
  {
    hide Next, Busy, Helps;
  }

  // From idle, charging is complete after ten of them.
  lemma ChargingCompletes(s: State, steps: seq<Step>)
    requires s.ram == 0 && AllHelp(s, steps)
    ensures Run(s, steps).ram == 11 <==> Moves(s, steps) >= 10
  {
    hide *;
    NotBefore(0);
    ChargingProgress(s, steps, 0);
    NotBefore(Moves(s, steps));
  }

  lemma NotBefore(i: nat)
    ensures PhaseAt(i) == 11 <==> i >= 10
    ensures PhaseAt(0) == 0
  {
  }

  // Charger 160 may go through a top-off phase of its own.
  lemma TopOffOf160(s: State, step: Step)
    requires step.Tick? && step.chargeOk
    ensures s.ram == 6 && step.input.stat == 2 ==> Next(s, step).ram == 7 == Next(s, step).eeprom
    ensures s.ram == 7 && step.input.stat in {0, 2} ==> Next(s, step).ram == 7
    ensures s.ram == 7 && step.input.stat == 3 ==> Next(s, step).ram == 8 == Next(s, step).eeprom
  {
    hide After, AllWrites, PortOps, Blame;
  }

  // Phase 4 without battery 280 goes back to the start.
  lemma MissingBatteryStartsOver(s: State, step: Step)
    requires step.Tick? && step.chargeOk && s.ram == 4 && step.input.bat280v < 80
    ensures Next(s, step).ram == 0 == Next(s, step).eeprom
  {
    hide After, AllWrites, PortOps;
  }

  /* Failing. */

  // Invalid reports fail everywhere, impossible ones too, and a shutdown before the top-off
  // of battery 40 or 280.
  predicate Fails(phase: uint8, input: Input) {
    && phase in {2, 4, 6, 7, 9, 10} && !(phase == 4 && input.bat280v < 80)
    && (input.stat == 1 || input.stat > 3 || (input.stat == 3 && phase in {2, 9}))
  }

  lemma FailsIff(s: State, v: bool, bok: bool, input: Input)
    requires Safe(s) && s.ram <= 201
    ensures Next(s, Tick(v, true, bok, input)).ram > 210 <==> Fails(Executed(s, input), input)
  {
    hide After, AllWrites, PortOps, PinsFit, EveryWriteSafe, Blame;
  }

  // The code names the battery and the report: 21x, 22x, 23x for 40, 160, 280.
  lemma FailureCode(s: State, v: bool, bok: bool, input: Input)
    requires Safe(s) && s.ram <= 201 && Fails(Executed(s, input), input) && input.stat <= 3
    ensures var p, code := Executed(s, input), Next(s, Tick(v, true, bok, input)).ram;
            && (p == 2 ==> code == if input.stat == 1 then 211 else 212)
            && (p == 4 ==> code == 214) && (p == 6 ==> code == 221) && (p == 7 ==> code == 224)
            && (p == 9 ==> code == if input.stat == 1 then 231 else 232)
            && (p == 10 ==> code == 234)
  {
    hide After, AllWrites, PortOps, PinsFit, EveryWriteSafe, Blame;
  }

  // The battery at fault is the one of the phase, and the link is blamed for a report that
  // cannot be; nothing else is, unless the report is impossible.
  lemma FailureBlames(s: State, v: bool, bok: bool, input: Input)
    requires Safe(s) && s.ram <= 201 && Fails(Executed(s, input), input)
    ensures var p, before, after := Executed(s, input), s.flags, Next(s, Tick(v, true, bok, input)).flags;
            && after.error40 == (before.error40 || p <= 4 || input.stat > 3)
            && after.error160 == (before.error160 || 5 <= p <= 7 || input.stat > 3)
            && after.error280 == (before.error280 || 8 <= p || input.stat > 3)
            && after.commError == (before.commError || input.stat != 3)
            && after.fatal == before.fatal
  {
    var t := s.(flags := s.flags.(voltageOk := v, chargeOk := true, batOk := bok));
    var r := Resumed(t, input);
    ExecutedIsResumed(t, input);
    assert Next(s, Tick(v, true, bok, input)) == Phase(r, input);
    hide Next, Safe, Resumed, Executed, After, AllWrites, PortOps, Polled;
    FailingPhase(r, input);
    PolledBlames(r.Apply(PortOps(r.ram)), input.stat);
  }

  lemma FailingPhase(r: State, input: Input)
    requires Fails(r.ram, input)
    ensures Phase(r, input) == Polled(r.Apply(PortOps(r.ram)), input.stat)
  {
    hide After, AllWrites, PortOps, Polled;
  }

  lemma ExecutedIsResumed(t: State, input: Input)
    ensures Resumed(t, input).ram == Executed(t, input) && Resumed(t, input).flags == t.flags
  {
  }

  lemma PolledBlames(t: State, stat: uint8)
    requires t.ram in {2, 4, 6, 7, 9, 10} && (stat == 1 || stat > 3 || (stat == 3 && t.ram in {2, 9}))
    ensures var p, before, after := t.ram, t.flags, Polled(t, stat).flags;
            && after.error40 == (before.error40 || p <= 4 || stat > 3)
            && after.error160 == (before.error160 || 5 <= p <= 7 || stat > 3)
            && after.error280 == (before.error280 || 8 <= p || stat > 3)
            && after.commError == (before.commError || stat != 3)
            && after.fatal == before.fatal
  {
  }
}
