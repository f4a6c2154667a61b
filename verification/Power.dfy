/**
  The power AVR's main loop: debounced sampling of the battery balance, the bus voltage and
  the charger supply, the power switches they drive, and the charger step.
*/
module Power {
  import opened Words
  import opened Charger
  import ChargerRuns

  const VOLT_DIFF := 2
  const SYS_LOW_VOLT_THRESH := 120
  const SYS_RECOVER_THRESH := 170
  const CHARGE_THRESH := 172
  const CHARGE_VOLTAGE_DELAY := 10
  const LOW_VOLT_ROUNDS := 50

  /* The three debouncers as functions of one sample. */

  datatype Balance = Balance(count: nat, ok: bool) {
    function Next(differ: bool): Balance {
      var c := if differ then (if count < 10 then count + 1 else count)
               else if count > 0 then count - 1 else count;
      Balance(c, if c >= 7 then false else if c <= 3 then true else ok)
    }
  }

  datatype Bus = Bus(count: nat, off: bool) {
    function Next(v: uint8): Bus {
      var c := if v >= SYS_LOW_VOLT_THRESH then 0
               else if count < LOW_VOLT_ROUNDS then count + 1 else count;
      Bus(c, c == LOW_VOLT_ROUNDS || (off && v <= SYS_RECOVER_THRESH))
    }
  }

  function SupplyNext(delay: nat, v: uint8): nat {
    if v > CHARGE_THRESH then (if delay < CHARGE_VOLTAGE_DELAY then delay + 1 else delay)
    else if delay > 0 then delay - 1 else delay
  }

  predicate Differ(a: uint8, b: uint8, c: uint8) {
    Abs(a - b) > VOLT_DIFF || Abs(a - c) > VOLT_DIFF || Abs(b - c) > VOLT_DIFF
  }

  /* The whole board. */

  datatype Board = Board(charger: State, balanceCount: nat, bus: Bus, delay: nat, batteries: Lines, cpu: bool)

  datatype Reading = Reading(charge: Input, systemVoltage: uint8, cpuSwitch: bool, chargeSwitch: bool)

  // system_state as the number the main switch looks at.
  function SystemState(f: Flags): nat {
    (if f.voltageOk then 1 else 0) + (if f.chargeOk then 2 else 0) + (if f.batOk then 4 else 0)
    + (if f.fatal then 8 else 0) + (if f.error40 then 16 else 0) + (if f.error160 then 32 else 0)
    + (if f.error280 then 64 else 0) + (if f.commError then 128 else 0)
  }

  function SampleSupply(b: Board, v: uint8): Board {
    var bus, delay := b.bus.Next(v), SupplyNext(b.delay, v);
    b.(bus := bus, delay := delay,
       charger := b.charger.(flags := b.charger.flags.(voltageOk := !bus.off, chargeOk := delay >= CHARGE_VOLTAGE_DELAY)))
  }

  function SampleBalance(b: Board, r: Reading): Board {
    var balance := Balance(b.balanceCount, b.charger.flags.batOk)
                   .Next(Differ(r.charge.bat40v, r.charge.bat160v, r.charge.bat280v));
    b.(balanceCount := balance.count, charger := b.charger.(flags := b.charger.flags.(batOk := balance.ok)))
  }

  function Sample(b: Board, r: Reading): Board {
    SampleSupply(SampleBalance(b, r), r.systemVoltage)
  }

  // The power switches for each system state.
  function Switch(b: Board, r: Reading): Board {
    var n := SystemState(b.charger.flags);
    if n in {0, 1} then b.(batteries := ALL_CLEAR, cpu := false)
    else if n == 4 then b.(batteries := ALL_SET, cpu := false)
    else if n == 5 then b.(batteries := ALL_SET, cpu := r.cpuSwitch)
    else if n in {2, 6, 3, 7} then b.(cpu := r.cpuSwitch)
    else b.(batteries := ALL_CLEAR, cpu := false, charger := b.charger.(flags := b.charger.flags.(fatal := true)))
  }

  function Round(b: Board, r: Reading): Board {
    var s := Switch(Sample(b, r), r);
    if r.chargeSwitch then s.(charger := ChargeStep(s.charger, r.charge)) else s
  }

  function PowerUpBoard(eeprom: uint8, log: seq<Event>): Board {
    Board(PowerUp(eeprom, log), 0, Bus(0, false), 0, ALL_CLEAR, false)
  }

  /* The firmware's own variables and code. */

  class PowerBoard {
    const charger: ChargerDevice
    var balanceCount: nat
    var lowCount: nat
    var off: bool
    var delay: nat
    var batteries: Lines
    var cpu: bool

    constructor (charger: ChargerDevice)
      ensures this.charger == charger
    {
      this.charger := charger;
      balanceCount, lowCount, off, delay := 0, 0, false, 0;
      batteries, cpu := ALL_CLEAR, false;
    }

    ghost function Model(): Board
      reads this, charger
    {
      Board(charger.Model(), balanceCount, Bus(lowCount, off), delay, batteries, cpu)
    }

    method BatteryLevelOkay(r: Reading) returns (ok: bool)
      modifies this`balanceCount, charger`systemState
      ensures Model() == SampleBalance(old(Model()), r)
      ensures ok == charger.systemState.batOk
    {
      var a, b, c := r.charge.bat40v, r.charge.bat160v, r.charge.bat280v;
      var diff := false;
      if a > b + VOLT_DIFF { diff := true; }
      if b > a + VOLT_DIFF { diff := true; }
      if a > c + VOLT_DIFF { diff := true; }
      if c > a + VOLT_DIFF { diff := true; }
      if b > c + VOLT_DIFF { diff := true; }
      if c > b + VOLT_DIFF { diff := true; }
      if diff {
        if balanceCount < 10 {
          balanceCount := balanceCount + 1;
        }
      } else {
        if balanceCount > 0 {
          balanceCount := balanceCount - 1;
        }
      }
      if balanceCount >= 7 {
        charger.systemState := charger.systemState.(batOk := false);
        return false;
      } else if balanceCount <= 3 {
        charger.systemState := charger.systemState.(batOk := true);
        return true;
      } else {
        return charger.systemState.batOk;
      }
    }

    method SystemVoltageOkay(v: uint8) returns (ok: bool)
      modifies this`lowCount, this`off, charger`systemState
      ensures Bus(lowCount, off) == Bus(old(lowCount), old(off)).Next(v)
      ensures ok == !off && charger.systemState == old(charger.systemState).(voltageOk := ok)
    {
      if v > SYS_RECOVER_THRESH {
        off := false;
      }
      if v < SYS_LOW_VOLT_THRESH {
        if lowCount < LOW_VOLT_ROUNDS {
          lowCount := lowCount + 1;
        }
      } else {
        lowCount := 0;
      }
      if lowCount == LOW_VOLT_ROUNDS || off {
        off := true;
        charger.systemState := charger.systemState.(voltageOk := false);
        return false;
      } else {
        charger.systemState := charger.systemState.(voltageOk := true);
        return true;
      }
    }

    method ChargeOkay(v: uint8) returns (ok: bool)
      modifies this`delay, charger`systemState
      ensures delay == SupplyNext(old(delay), v)
      ensures ok == (delay >= CHARGE_VOLTAGE_DELAY) && charger.systemState == old(charger.systemState).(chargeOk := ok)
    {
      if v > CHARGE_THRESH {
        if delay < CHARGE_VOLTAGE_DELAY {
          delay := delay + 1;
        }
      } else if delay > 0 {
        delay := delay - 1;
      }
      if delay < CHARGE_VOLTAGE_DELAY {
        charger.systemState := charger.systemState.(chargeOk := false);
        return false;
      } else {
        charger.systemState := charger.systemState.(chargeOk := true);
        return true;
      }
    }

    method SampleAll(r: Reading)
      modifies this`balanceCount, this`lowCount, this`off, this`delay, charger`systemState
      ensures Model() == Sample(old(Model()), r)
    {
      var v := SystemVoltageOkay(r.systemVoltage);
      var b := BatteryLevelOkay(r);
      var c := ChargeOkay(r.systemVoltage);
    }

    // One turn of the main loop.
    method MainRound(r: Reading)
      modifies this, charger
      ensures Model() == Round(old(Model()), r)
    {
      hide Sample, Switch, ChargeStep;
      SampleAll(r);
      SetSwitches(r);
      if r.chargeSwitch {
        charger.Charge(r.charge);
      }
    }

    method SetSwitches(r: Reading)
      modifies this`batteries, this`cpu, charger`systemState
      ensures Model() == Switch(old(Model()), r)
    {
      var n := SystemState(charger.systemState);
      if n == 0 || n == 1 {
        batteries := ALL_CLEAR;
        cpu := false;
      } else if n == 4 {
        batteries := ALL_SET;
        cpu := false;
      } else if n == 5 {
        batteries := ALL_SET;
        cpu := r.cpuSwitch;
      } else if n == 2 || n == 6 || n == 3 || n == 7 {
        cpu := r.cpuSwitch;
      } else {
        batteries := ALL_CLEAR;
        cpu := false;
        charger.systemState := charger.systemState.(fatal := true);
      }
    }
  }

  /* Runs of the board: start-up sampling, main rounds and power cycles in any order. */

  datatype Step = Sampling(r: Reading) | WaitForCharger(v: uint8) | Main(r: Reading) | PowerCycle

  function Next(b: Board, step: Step): Board {
    match step
    case Sampling(r) => Sample(b, r)
    case WaitForCharger(v) => SampleSupply(b, v)
    case Main(r) => Round(b, r)
    case PowerCycle => PowerUpBoard(b.charger.eeprom, b.charger.log)
  }

  function Run(b: Board, steps: seq<Step>): Board {
    if steps == [] then b else Next(Run(b, steps[..|steps| - 1]), steps[|steps| - 1])
  }

  // The phase is one of the charger's error codes.
  predicate Failed(s: State) {
    s.ram > 210
  }

  predicate Consistent(b: Board) {
    && ChargerRuns.Safe(b.charger)
    && b.delay <= CHARGE_VOLTAGE_DELAY
    && (b.charger.flags.chargeOk ==> b.charger.flags.voltageOk)
    && (Failed(b.charger) ==> b.charger.flags.AnyError())
  }

  // The charger step adds error bits and touches nothing else of the system state.
  predicate OnlyAddsErrors(f: Flags, t: Flags) {
    && t.voltageOk == f.voltageOk && t.chargeOk == f.chargeOk && t.batOk == f.batOk && t.fatal == f.fatal
    && (f.AnyError() ==> t.AnyError())
  }

  lemma BlameAdds(f: Flags, b: Battery, stat: uint8)
    ensures OnlyAddsErrors(f, Blame(f, b, stat)) && Blame(f, b, stat).AnyError()
  {
    match b
    case B40 =>
    case B160 =>
    case B280 =>
  }

  lemma PolledFlags(s: State, stat: uint8)
    requires Polls(s.ram)
    ensures OnlyAddsErrors(s.flags, Polled(s, stat).flags)
    ensures Polled(s, stat).ram > 200 && s.ram < 200 ==> Polled(s, stat).flags.AnyError()
  {
    BlameAdds(s.flags, BatteryOf(s.ram), stat);
    hide Blame, BatteryOf;
  }

  lemma PhaseFlags(s: State, input: Input)
    ensures OnlyAddsErrors(s.flags, Phase(s, input).flags)
    ensures Phase(s, input).ram > 200 && s.ram < 200 ==> Phase(s, input).flags.AnyError()
  {
    hide Polled, AllWrites, After, PortOps;
    var t := s.Apply(PortOps(s.ram));
    if Polls(s.ram) {
      PolledFlags(t, input.stat);
    }
  }

  lemma ChargeStepKeepsSampling(s: State, input: Input)
    ensures OnlyAddsErrors(s.flags, ChargeStep(s, input).flags)
  {
    PhaseFlags(Resumed(s, input), input);
    hide Phase;
  }

  // A charger that fails, be it in the very call that resumes charging, is flagged.
  lemma FailureIsFlagged(s: State, input: Input)
    requires ChargerRuns.Safe(s) && !Failed(s)
    ensures Failed(ChargeStep(s, input)) ==> ChargeStep(s, input).flags.AnyError()
  {
    PhaseFlags(Resumed(s, input), input);
    hide Phase;
  }

  lemma SampleConsistent(b: Board, r: Reading)
    requires Consistent(b)
    ensures Consistent(Sample(b, r)) && SystemState(Sample(b, r).charger.flags) !in {2, 6}
  {
    SafeIgnoresFlags(b.charger, Sample(b, r).charger);
    hide ChargerRuns.Safe;
  }

  lemma SwitchConsistent(b: Board, r: Reading)
    requires Consistent(b)
    ensures Consistent(Switch(b, r))
  {
    SafeIgnoresFlags(b.charger, Switch(b, r).charger);
    hide ChargerRuns.Safe, SystemState;
  }

  lemma ChargeConsistent(b: Board, input: Input)
    requires Consistent(b)
    ensures Consistent(b.(charger := ChargeStep(b.charger, input)))
  {
    hide ChargerRuns.Safe, ChargeStep;
    var f := b.charger.flags;
    ChargerRuns.NextSafe(b.charger, ChargerRuns.Tick(f.voltageOk, f.chargeOk, f.batOk, input));
    assert b.charger.(flags := f.(voltageOk := f.voltageOk, chargeOk := f.chargeOk, batOk := f.batOk)) == b.charger;
    ChargeStepKeepsSampling(b.charger, input);
    if !Failed(b.charger) {
      FailureIsFlagged(b.charger, input);
    }
  }

  lemma NextConsistent(b: Board, step: Step)
    requires Consistent(b)
    ensures Consistent(Next(b, step))
    // The two states the main switch calls invalid never come up.
    ensures step.Main? ==> SystemState(Sample(b, step.r).charger.flags) !in {2, 6}
  {
    match step
    case Sampling(r) =>
      SampleConsistent(b, r);
    case WaitForCharger(v) =>
      SafeIgnoresFlags(b.charger, SampleSupply(b, v).charger);
      hide ChargerRuns.Safe;
    case Main(r) =>
      hide Sample, Switch, Consistent, ChargeStep, SystemState;
      SampleConsistent(b, r);
      SwitchConsistent(Sample(b, r), r);
      ChargeConsistent(Switch(Sample(b, r), r), r.charge);
    case PowerCycle =>
      ChargerRuns.NextSafe(b.charger, ChargerRuns.PowerCycle);
  }

  lemma SafeIgnoresFlags(s: State, t: State)
    requires ChargerRuns.Safe(s) && t == s.(flags := t.flags)
    ensures ChargerRuns.Safe(t)
  {
  }

  // A charger supply is only ever reported together with a good bus voltage, and the
  // charger's own guarantees hold under the real sampling, too.
  lemma {:induction false} RunConsistent(eeprom: uint8, log: seq<Event>, steps: seq<Step>)
    requires ChargerRuns.Restorable(eeprom)
    ensures Consistent(Run(PowerUpBoard(eeprom, log), steps))
    decreases |steps|
  {
    if steps == [] {
      ChargerRuns.RunSafe(eeprom, log, []);
    } else {
      RunConsistent(eeprom, log, steps[..|steps| - 1]);
      NextConsistent(Run(PowerUpBoard(eeprom, log), steps[..|steps| - 1]), steps[|steps| - 1]);
    }
  }

  /* Errors are final until the next power cycle. */

  predicate ShutDown(b: Board) {
    b.batteries == ALL_CLEAR && !b.cpu
  }

  function Rounds(b: Board, rounds: seq<Reading>): Board {
    if rounds == [] then b else Round(Rounds(b, rounds[..|rounds| - 1]), rounds[|rounds| - 1])
  }

  lemma {:induction false} ErrorsShutDown(b: Board, rounds: seq<Reading>)
    requires b.charger.flags.AnyError()
    ensures Rounds(b, rounds).charger.flags.AnyError()
    ensures rounds != [] ==> ShutDown(Rounds(b, rounds))
    decreases |rounds|
  {
    hide Round, ShutDown;
    if rounds != [] {
      ErrorsShutDown(b, rounds[..|rounds| - 1]);
      ErrorRound(Rounds(b, rounds[..|rounds| - 1]), rounds[|rounds| - 1]);
    }
  }

  lemma ErrorRound(b: Board, r: Reading)
    requires b.charger.flags.AnyError()
    ensures ShutDown(Round(b, r)) && Round(b, r).charger.flags.AnyError()
  {
    hide ChargeStep;
    assert SystemState(Sample(b, r).charger.flags) >= 8;
    ChargeStepKeepsSampling(Switch(Sample(b, r), r).charger, r.charge);
  }

  // In every run, once a charger has failed, every later round leaves everything off.
  lemma FailureShutsDown(eeprom: uint8, log: seq<Event>, steps: seq<Step>, later: seq<Reading>)
    requires ChargerRuns.Restorable(eeprom)
    requires Failed(Run(PowerUpBoard(eeprom, log), steps).charger) && later != []
    ensures ShutDown(Rounds(Run(PowerUpBoard(eeprom, log), steps), later))
  {
    hide Run, Rounds, ShutDown;
    RunConsistent(eeprom, log, steps);
    ErrorsShutDown(Run(PowerUpBoard(eeprom, log), steps), later);
  }

  /* What the debouncers mean in terms of the readings since power-up. */

  function BusAfter(readings: seq<uint8>): Bus {
    if readings == [] then Bus(0, false)
    else BusAfter(readings[..|readings| - 1]).Next(readings[|readings| - 1])
  }

  predicate Low(readings: seq<uint8>, from: nat, to: nat)
    requires from <= to <= |readings|
  {
    forall i | from <= i < to :: readings[i] < SYS_LOW_VOLT_THRESH
  }

  lemma {:induction false} LowCount(readings: seq<uint8>, m: nat)
    requires m <= |readings|
    ensures var c := BusAfter(readings).count;
            && c <= LOW_VOLT_ROUNDS && c <= |readings| && Low(readings, |readings| - c, |readings|)
            && (Low(readings, |readings| - m, |readings|) ==> c >= m || c == LOW_VOLT_ROUNDS)
    decreases |readings|
  {
    if readings != [] {
      var n := |readings| - 1;
      LowCount(readings[..n], if m > 0 then m - 1 else 0);
      var c := BusAfter(readings[..n]).count;
      assert forall i | n - c <= i < n :: readings[i] == readings[..n][i];
      if m > 0 && Low(readings, |readings| - m, |readings|) {
        assert Low(readings[..n], n - (m - 1), n);
        assert readings[n] < SYS_LOW_VOLT_THRESH;
      }
    }
  }

  // Fifty low readings up to k, and none above the recovery threshold since.
  predicate LostAt(readings: seq<uint8>, k: nat) {
    && LOW_VOLT_ROUNDS <= k <= |readings| && Low(readings, k - LOW_VOLT_ROUNDS, k)
    && forall i | k <= i < |readings| :: readings[i] <= SYS_RECOVER_THRESH
  }

  lemma {:induction false} OffIffLost(readings: seq<uint8>)
    ensures BusAfter(readings).off <==> exists k: nat :: LostAt(readings, k)
    decreases |readings|
  {
    if readings != [] {
      var n := |readings| - 1;
      var before, last := readings[..n], readings[n];
      OffIffLost(before);
      LowCount(readings, if n + 1 < LOW_VOLT_ROUNDS then n + 1 else LOW_VOLT_ROUNDS);
      if BusAfter(readings).count == LOW_VOLT_ROUNDS {
        assert LostAt(readings, n + 1);
      } else if BusAfter(readings).off {
        var k: nat :| LostAt(before, k);
        assert Low(readings, k - LOW_VOLT_ROUNDS, k) && LostAt(readings, k);
      }
      forall k: nat | LostAt(readings, k)
        ensures BusAfter(readings).off
      {
        if k <= n {
          assert LostAt(before, k);
        }
      }
    }
  }

  function BalanceAfter(differ: seq<bool>): Balance {
    if differ == [] then Balance(0, false)
    else BalanceAfter(differ[..|differ| - 1]).Next(differ[|differ| - 1])
  }

  lemma {:induction false} CountDrift(differ: seq<bool>, i: nat)
    requires i <= |differ|
    ensures Abs(BalanceAfter(differ).count - BalanceAfter(differ[..i]).count) <= |differ| - i
    decreases |differ|
  {
    if i < |differ| {
      var n := |differ| - 1;
      CountDrift(differ[..n], i);
      assert differ[..n][..i] == differ[..i];
    } else {
      assert differ[..i] == differ;
    }
  }

  lemma CountsApart(differ: seq<bool>, i: nat, j: nat)
    requires 1 <= i < j <= |differ|
    requires BalanceAfter(differ[..i - 1]).ok != BalanceAfter(differ[..i]).ok
    requires BalanceAfter(differ[..j - 1]).ok != BalanceAfter(differ[..j]).ok
    requires BalanceAfter(differ[..i]).ok != BalanceAfter(differ[..j]).ok
    ensures j - i >= 4
  {
    var before, after := differ[..i], differ[..j];
    assert before[..i - 1] == differ[..i - 1] && after[..j - 1] == differ[..j - 1] && after[..i] == before;
    CountDrift(after, i);
  }

  /* The flags of the board are those debouncers, over what it sampled since power-up. */

  // The bus readings since the last power-up.
  function Voltages(steps: seq<Step>): seq<uint8> {
    if steps == [] then [] else
      var before := Voltages(steps[..|steps| - 1]);
      match steps[|steps| - 1]
      case Sampling(r) => before + [r.systemVoltage]
      case WaitForCharger(v) => before + [v]
      case Main(r) => before + [r.systemVoltage]
      case PowerCycle => []
  }

  // Whether the batteries differed, at each time they were compared since the last power-up.
  function Differences(steps: seq<Step>): seq<bool> {
    if steps == [] then [] else
      var before := Differences(steps[..|steps| - 1]);
      match steps[|steps| - 1]
      case Sampling(r) => before + [Differ(r.charge.bat40v, r.charge.bat160v, r.charge.bat280v)]
      case WaitForCharger(v) => before
      case Main(r) => before + [Differ(r.charge.bat40v, r.charge.bat160v, r.charge.bat280v)]
      case PowerCycle => []
  }

  predicate Debounced(b: Board, voltages: seq<uint8>, differ: seq<bool>) {
    && b.bus == BusAfter(voltages) && Balance(b.balanceCount, b.charger.flags.batOk) == BalanceAfter(differ)
    && (voltages != [] ==> b.charger.flags.voltageOk == !b.bus.off)
  }

  lemma OneMoreReading(voltages: seq<uint8>, v: uint8, differ: seq<bool>, d: bool)
    ensures BusAfter(voltages + [v]) == BusAfter(voltages).Next(v)
    ensures BalanceAfter(differ + [d]) == BalanceAfter(differ).Next(d)
  {
    assert (voltages + [v])[..|voltages|] == voltages && (differ + [d])[..|differ|] == differ;
  }

  lemma SampleDebounced(b: Board, r: Reading, voltages: seq<uint8>, differ: seq<bool>)
    requires Debounced(b, voltages, differ)
    ensures var d := Differ(r.charge.bat40v, r.charge.bat160v, r.charge.bat280v);
            Debounced(Sample(b, r), voltages + [r.systemVoltage], differ + [d])
  {
    OneMoreReading(voltages, r.systemVoltage, differ, Differ(r.charge.bat40v, r.charge.bat160v, r.charge.bat280v));
    hide BusAfter, BalanceAfter, Differ, Bus.Next, Balance.Next;
  }

  lemma RoundDebounced(b: Board, r: Reading, voltages: seq<uint8>, differ: seq<bool>)
    requires Debounced(Sample(b, r), voltages, differ)
    ensures Debounced(Round(b, r), voltages, differ)
  {
    hide Sample, ChargeStep, BusAfter, BalanceAfter, SystemState;
    ChargeStepKeepsSampling(Switch(Sample(b, r), r).charger, r.charge);
  }

  lemma {:induction false} RunDebounced(eeprom: uint8, log: seq<Event>, steps: seq<Step>)
    ensures Debounced(Run(PowerUpBoard(eeprom, log), steps), Voltages(steps), Differences(steps))
    decreases |steps|
  {
    if steps != [] {
      var before, last := steps[..|steps| - 1], steps[|steps| - 1];
      RunDebounced(eeprom, log, before);
      var b := Run(PowerUpBoard(eeprom, log), before);
      hide Run, Debounced;
      StepDebounced(b, last, before);
      assert before + [last] == steps;
      RunStep(PowerUpBoard(eeprom, log), steps);
    }
  }

  lemma RunStep(b: Board, steps: seq<Step>)
    requires steps != []
    ensures Run(b, steps) == Next(Run(b, steps[..|steps| - 1]), steps[|steps| - 1])
  {
  }

  lemma StepDebounced(b: Board, step: Step, before: seq<Step>)
    requires Debounced(b, Voltages(before), Differences(before))
    ensures Debounced(Next(b, step), Voltages(before + [step]), Differences(before + [step]))
  {
    assert (before + [step])[..|before|] == before;
    match step
    case Sampling(r) =>
      SampleDebounced(b, r, Voltages(before), Differences(before));
    case WaitForCharger(v) =>
      OneMoreReading(Voltages(before), v, [], false);
      hide BusAfter, BalanceAfter, Bus.Next;
    case Main(r) =>
      hide Sample, Round, Debounced;
      SampleDebounced(b, r, Voltages(before), Differences(before));
      RoundDebounced(b, r, Voltages(before + [step]), Differences(before + [step]));
    case PowerCycle =>
  }

  // In every run, once the bus has been sampled, VOLTAGE_OK is down exactly after fifty low
  // readings in a row with none above the recovery threshold since.
  lemma BusOffIff(eeprom: uint8, log: seq<Event>, steps: seq<Step>)
    requires Voltages(steps) != []
    ensures !Run(PowerUpBoard(eeprom, log), steps).charger.flags.voltageOk
       <==> exists k: nat :: LostAt(Voltages(steps), k)
  {
    hide Run, LostAt;
    RunDebounced(eeprom, log, steps);
    OffIffLost(Voltages(steps));
  }

  function BatOkAfter(eeprom: uint8, log: seq<Event>, steps: seq<Step>): bool {
    Run(PowerUpBoard(eeprom, log), steps).charger.flags.batOk
  }

  predicate Samples(step: Step) {
    step.Sampling? || step.Main?
  }

  // How many of the steps compare the batteries.
  function Comparisons(steps: seq<Step>): nat {
    if steps == [] then 0
    else Comparisons(steps[..|steps| - 1]) + if Samples(steps[|steps| - 1]) then 1 else 0
  }

  lemma {:induction false} DifferencesGrow(steps: seq<Step>, i: nat, j: nat)
    requires i <= j <= |steps| && forall k | i <= k < j :: !steps[k].PowerCycle?
    ensures Differences(steps[..i]) <= Differences(steps[..j])
    ensures |Differences(steps[..j])| - |Differences(steps[..i])| == Comparisons(steps[i..j])
    decreases j
  {
    if i < j {
      DifferencesGrow(steps, i, j - 1);
      assert steps[..j][..j - 1] == steps[..j - 1] && steps[i..j][..j - 1 - i] == steps[i..j - 1];
    } else {
      assert steps[i..j] == [];
    }
  }

  // In every run, between two opposite changes of BAT_OK there are at least four rounds of
  // sampling, the second change's included.
  lemma BalanceChangesApart(eeprom: uint8, log: seq<Event>, steps: seq<Step>, i: nat, j: nat)
    requires 1 <= i < j <= |steps| && forall k | i - 1 <= k < j :: !steps[k].PowerCycle?
    requires BatOkAfter(eeprom, log, steps[..i - 1]) != BatOkAfter(eeprom, log, steps[..i])
    requires BatOkAfter(eeprom, log, steps[..j - 1]) != BatOkAfter(eeprom, log, steps[..j])
    requires BatOkAfter(eeprom, log, steps[..i]) != BatOkAfter(eeprom, log, steps[..j])
    ensures Comparisons(steps[i..j]) >= 4
  {
    hide BatOkAfter, Differences, Comparisons, BalanceAfter;
    ChangeIsSampled(eeprom, log, steps, i);
    ChangeIsSampled(eeprom, log, steps, j);
    DifferencesGrow(steps, i, j);
    var d := Differences(steps[..j]);
    var m, n := |Differences(steps[..i])|, |d|;
    assert d[..m] == Differences(steps[..i]);
    assert d[..m - 1] == Differences(steps[..i])[..m - 1];
    assert d[..n] == d;
    assert m != n;
    CountsApart(d, m, n);
  }

  // A change of the flag comes with one more comparison, and is the debouncer's.
  lemma ChangeIsSampled(eeprom: uint8, log: seq<Event>, steps: seq<Step>, k: nat)
    requires 1 <= k <= |steps| && !steps[k - 1].PowerCycle?
    requires BatOkAfter(eeprom, log, steps[..k - 1]) != BatOkAfter(eeprom, log, steps[..k])
    ensures var d := Differences(steps[..k]);
            && d != []
            && BatOkAfter(eeprom, log, steps[..k]) == BalanceAfter(d).ok
            && BatOkAfter(eeprom, log, steps[..k - 1]) == BalanceAfter(d[..|d| - 1]).ok
  {
    hide Run, BalanceAfter, BusAfter;
    RunDebounced(eeprom, log, steps[..k - 1]);
    RunDebounced(eeprom, log, steps[..k]);
    assert steps[..k][..k - 1] == steps[..k - 1] && steps[..k][k - 1] == steps[k - 1];
    var d := Differences(steps[..k]);
    if d != Differences(steps[..k - 1]) {
      assert d[..|d| - 1] == Differences(steps[..k - 1]);
    }
  }
}
