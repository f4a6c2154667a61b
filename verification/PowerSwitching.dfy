/**
  What the power switches do, and when the flags they follow come up, over every run.
*/
module PowerSwitching {
  import opened Words
  import opened Charger
  import opened Power
  import ChargerRuns

  // A round that starts without an error bit, in terms of the flags it leaves.
  predicate SwitchedBy(f: Flags, r: Reading, before: Board, after: Board) {
    && (!f.chargeOk && f.batOk ==> after.batteries == Lines(true, true, true) && after.cpu == (f.voltageOk && r.cpuSwitch))
    && (!f.chargeOk && !f.batOk ==> after.batteries == Lines(false, false, false) && !after.cpu)
    && (f.chargeOk ==> after.batteries == before.batteries && after.cpu == r.cpuSwitch)
  }

  // The charger has its turn exactly with its switch on, under the flags just sampled.
  predicate ServedBy(r: Reading, before: State, after: State) {
    var f := after.flags;
    && (r.chargeSwitch ==> after == ChargerRuns.Next(before, ChargerRuns.Tick(f.voltageOk, f.chargeOk, f.batOk, r.charge)))
    && (!r.chargeSwitch ==> after == before.(flags := f) && !f.AnyError())
  }

  lemma SwitchMeaning(b: Board, r: Reading)
    requires !b.charger.flags.AnyError() && SystemState(b.charger.flags) !in {2, 6}
    ensures SwitchedBy(b.charger.flags, r, b, Switch(b, r)) && Switch(b, r).charger == b.charger
  {
  }

  lemma SampleOnlySamples(b: Board, r: Reading)
    ensures var s := Sample(b, r);
            s.batteries == b.batteries && s.cpu == b.cpu && s.charger.flags.AnyError() == b.charger.flags.AnyError()
  {
  }

  // In every run, a main round without an error bit: on batteries alone, all of them drive the
  // bus if they are balanced, and the processor runs exactly with a good bus and its switch on;
  // unbalanced, all is off.  With a supply the batteries stay as they are.
  lemma MainSwitches(eeprom: uint8, log: seq<Event>, steps: seq<Step>, r: Reading)
    requires ChargerRuns.Restorable(eeprom)
    ensures var before := Run(PowerUpBoard(eeprom, log), steps);
            var after := Run(PowerUpBoard(eeprom, log), steps + [Main(r)]);
            !before.charger.flags.AnyError() ==>
              SwitchedBy(after.charger.flags, r, before, after) && ServedBy(r, before.charger, after.charger)
  {
    hide Consistent, SystemState, Sample, Switch, SwitchedBy, ServedBy;
    var before := Run(PowerUpBoard(eeprom, log), steps);
    OneMoreStep(PowerUpBoard(eeprom, log), steps, Main(r));
    RunConsistent(eeprom, log, steps);
    if !before.charger.flags.AnyError() {
      RoundSwitches(before, r);
      RoundServesCharger(before, r);
    }
  }

  lemma OneMoreStep(b: Board, steps: seq<Step>, step: Step)
    ensures Run(b, steps + [step]) == Next(Run(b, steps), step)
  {
    hide Next;
    RunStep(b, steps + [step]);
    assert (steps + [step])[..|steps|] == steps;
  }

  lemma RoundSwitches(b: Board, r: Reading)
    requires Consistent(b) && !b.charger.flags.AnyError()
    ensures SwitchedBy(Round(b, r).charger.flags, r, b, Round(b, r))
  {
    hide Consistent, SystemState, Sample, Switch, ChargeStep;
    NextConsistent(b, Main(r));
    SampleOnlySamples(b, r);
    SwitchMeaning(Sample(b, r), r);
    ChargeStepKeepsSampling(Switch(Sample(b, r), r).charger, r.charge);
  }

  lemma RoundServesCharger(b: Board, r: Reading)
    requires Consistent(b) && !b.charger.flags.AnyError()
    ensures ServedBy(r, b.charger, Round(b, r).charger)
  {
    hide Consistent, SystemState, ChargeStep, Switch;
    NextConsistent(b, Main(r));
    SampleOnlySamples(b, r);
    SwitchMeaning(Sample(b, r), r);
    var s := Sample(b, r).charger;
    assert s == b.charger.(flags := b.charger.flags.(voltageOk := s.flags.voltageOk, chargeOk := s.flags.chargeOk, batOk := s.flags.batOk));
    ChargeStepKeepsSampling(s, r.charge);
  }

  /* When the flags come up. */

  function Spread(r: Reading): nat {
    var a, b, c := r.charge.bat40v, r.charge.bat160v, r.charge.bat280v;
    var highest := if a >= b && a >= c then a else if b >= c then b else c;
    var lowest := if a <= b && a <= c then a else if b <= c then b else c;
    highest - lowest
  }

  // One round's sampling, in the readings' own terms.
  predicate BalanceSampled(b: Board, r: Reading, t: Board) {
    && (Spread(r) > 2 ==> t.balanceCount == if b.balanceCount < 10 then b.balanceCount + 1 else 10)
    && (Spread(r) <= 2 ==> t.balanceCount == if b.balanceCount > 0 then b.balanceCount - 1 else 0)
    && (t.balanceCount >= 7 ==> !t.charger.flags.batOk)
    && (t.balanceCount <= 3 ==> t.charger.flags.batOk)
  }

  predicate SupplySampled(b: Board, r: Reading, t: Board) {
    && t.delay == (if r.systemVoltage <= 172 then (if b.delay > 0 then b.delay - 1 else 0)
                   else if b.delay < 10 then b.delay + 1 else 10)
    && (t.charger.flags.chargeOk <==> t.delay == 10)
  }

  lemma DifferBySpread(r: Reading)
    ensures Differ(r.charge.bat40v, r.charge.bat160v, r.charge.bat280v) <==> Spread(r) > 2
  {
  }

  lemma Sampled(b: Board, r: Reading)
    requires b.delay <= 10 && b.balanceCount <= 10
    ensures BalanceSampled(b, r, Sample(b, r)) && SupplySampled(b, r, Sample(b, r))
  {
    DifferBySpread(r);
    hide Differ, Spread, Bus.Next;
  }

  // Neither the switches nor the charger touch what was sampled.
  lemma RoundKeepsSampling(b: Board, r: Reading)
    ensures var s, t := Sample(b, r), Round(b, r);
            && t.balanceCount == s.balanceCount && t.delay == s.delay
            && t.charger.flags.batOk == s.charger.flags.batOk && t.charger.flags.chargeOk == s.charger.flags.chargeOk
  {
    hide ChargeStep, SystemState, Sample;
    ChargeStepKeepsSampling(Switch(Sample(b, r), r).charger, r.charge);
  }

  lemma SampledRound(b: Board, r: Reading)
    requires b.delay <= 10 && b.balanceCount <= 10
    ensures BalanceSampled(b, r, Round(b, r)) && SupplySampled(b, r, Round(b, r))
  {
    hide Sample, Round, Spread;
    Sampled(b, r);
    RoundKeepsSampling(b, r);
  }

  predicate AllApart(rounds: seq<Reading>) {
    forall k | 0 <= k < |rounds| :: Spread(rounds[k]) > 2
  }

  predicate NoneApart(rounds: seq<Reading>) {
    forall k | 0 <= k < |rounds| :: Spread(rounds[k]) <= 2
  }

  predicate SupplyUp(rounds: seq<Reading>) {
    forall k | 0 <= k < |rounds| :: rounds[k].systemVoltage > 172
  }

  lemma {:induction false} CountersAfter(b: Board, rounds: seq<Reading>)
    requires b.delay <= 10 && b.balanceCount <= 10
    ensures var t, n := Rounds(b, rounds), if |rounds| < 10 then |rounds| else 10;
            && t.delay <= 10 && t.balanceCount <= 10
            && (AllApart(rounds) ==> t.balanceCount >= n)
            && (NoneApart(rounds) ==> t.balanceCount <= 10 - n)
            && (SupplyUp(rounds) ==> t.delay >= n)
    decreases |rounds|
  {
    hide Round, Spread;
    if rounds != [] {
      var n := |rounds| - 1;
      CountersAfter(b, rounds[..n]);
      SampledRound(Rounds(b, rounds[..n]), rounds[n]);
    }
  }

  // After any run: seven rounds in a row with a pair of batteries more than two apart take
  // BAT_OK down, seven with none set it; ten with more than 172 on the bus set CHARGE_OK, and
  // one with less takes it down.
  lemma FlagsSettle(eeprom: uint8, log: seq<Event>, steps: seq<Step>, rounds: seq<Reading>)
    requires ChargerRuns.Restorable(eeprom)
    ensures var f := Rounds(Run(PowerUpBoard(eeprom, log), steps), rounds).charger.flags;
            && (|rounds| >= 7 && AllApart(rounds) ==> !f.batOk)
            && (|rounds| >= 7 && NoneApart(rounds) ==> f.batOk)
            && (|rounds| >= 10 && SupplyUp(rounds) ==> f.chargeOk)
            && (rounds != [] && rounds[|rounds| - 1].systemVoltage <= 172 ==> !f.chargeOk)
  {
    var b := Run(PowerUpBoard(eeprom, log), steps);
    RunConsistent(eeprom, log, steps);
    RunDebounced(eeprom, log, steps);
    CountAtMostTen(Differences(steps));
    assert b.delay <= 10 && b.balanceCount <= 10 by {
      hide Run, BusAfter, BalanceAfter, Voltages, Differences, ChargerRuns.Safe;
    }
    hide *;
    if rounds != [] {
      SettledFlags(b, rounds);
    }
  }

  lemma SettledFlags(b: Board, rounds: seq<Reading>)
    requires b.delay <= 10 && b.balanceCount <= 10 && rounds != []
    ensures var f := Rounds(b, rounds).charger.flags;
            && (|rounds| >= 7 && AllApart(rounds) ==> !f.batOk)
            && (|rounds| >= 7 && NoneApart(rounds) ==> f.batOk)
            && (|rounds| >= 10 && SupplyUp(rounds) ==> f.chargeOk)
            && (rounds[|rounds| - 1].systemVoltage <= 172 ==> !f.chargeOk)
  {
    hide Round, Spread, AllApart, NoneApart, SupplyUp;
    var n := |rounds| - 1;
    CountersAfter(b, rounds[..n]);
    CountersAfter(b, rounds);
    SampledRound(Rounds(b, rounds[..n]), rounds[n]);
  }

  lemma {:induction false} CountAtMostTen(differ: seq<bool>)
    ensures BalanceAfter(differ).count <= 10
    decreases |differ|
  {
    if differ != [] {
      CountAtMostTen(differ[..|differ| - 1]);
    }
  }
}
