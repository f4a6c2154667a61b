/**
  The battery charger of the power AVR: a phase machine held in RAM, checkpointed in
  EEPROM, that may be unplugged, replugged and power-cycled at any point.
*/
module Charger {
  import opened Words

  datatype Battery = B40 | B160 | B280

  const FUEL_STATE0: uint8 := 0
  const FUEL_STATE11: uint8 := 11
  const CHARGING_INTERRUPTED: uint8 := 201
  const ERASED: uint8 := 0xFF

  const CHARGER_BASE_CHARGE := 0
  const CHARGER_INVALID := 1
  const CHARGER_TOPOFF_CHARGE := 2
  const CHARGER_SHUTDOWN := 3

  const MIN_BAT_VOLTAGE := 80
  const MIN_BAT_CHARGE_VOLTAGE := 160
  const OVERRIDE_CHARGING_DISABLED_VOLTAGE := 145

  /* system_state, bit by bit. */
  datatype Flags = Flags(voltageOk: bool, chargeOk: bool, batOk: bool, fatal: bool,
                         error40: bool, error160: bool, error280: bool, commError: bool)
  {
    predicate AnyError() {
      fatal || error40 || error160 || error280 || commError
    }
  }

  const NO_FLAGS := Flags(false, false, false, false, false, false, false, false)

  /* One bit for each charger, in a port or data-direction register. */
  datatype Lines = Lines(l40: bool, l160: bool, l280: bool) {
    function Get(b: Battery): bool {
      match b case B40 => l40 case B160 => l160 case B280 => l280
    }

    function Set(b: Battery, v: bool): Lines {
      match b
      case B40 => this.(l40 := v)
      case B160 => this.(l160 := v)
      case B280 => this.(l280 := v)
    }
  }

  const ALL_CLEAR := Lines(false, false, false)
  const ALL_SET := Lines(true, true, true)

  // A charger is off while its shutdown pin is driven low, and on when the pin is released.
  datatype Pins = Pins(ddr: Lines, port: Lines) {
    predicate Enabled(b: Battery) {
      !ddr.Get(b) || port.Get(b)
    }

    predicate OnlyMayBeOn(b: Battery) {
      (Enabled(B40) ==> b == B40) && (Enabled(B160) ==> b == B160) && (Enabled(B280) ==> b == B280)
    }

    predicate AtMostOneOn() {
      !(Enabled(B40) && Enabled(B160)) && !(Enabled(B40) && Enabled(B280)) && !(Enabled(B160) && Enabled(B280))
    }
  }

  datatype PortOp = Enable(b: Battery) | Disable(b: Battery)

  // The register contents after each single write of an operation.
  function Writes(pins: Pins, op: PortOp): (w: seq<Pins>)
    ensures |w| > 0
  {
    match op
    case Enable(b) => [pins.(ddr := pins.ddr.Set(b, false))]
    case Disable(b) =>
      var low := pins.(port := pins.port.Set(b, false));
      [low, low.(ddr := low.ddr.Set(b, true))]
  }

  function Last(w: seq<Pins>): Pins
    requires w != []
  {
    w[|w| - 1]
  }

  function AllWrites(pins: Pins, ops: seq<PortOp>): seq<Pins>
    decreases |ops|
  {
    if ops == [] then [] else
      var w := Writes(pins, ops[0]);
      w + AllWrites(Last(w), ops[1..])
  }

  function After(pins: Pins, ops: seq<PortOp>): Pins
    decreases |ops|
  {
    if ops == [] then pins else After(Last(Writes(pins, ops[0])), ops[1..])
  }

  datatype Event = Started | Reported(b: Battery, stat: uint8)

  datatype State = State(ram: uint8, eeprom: uint8, flags: Flags, pins: Pins,
                         writes: seq<Pins>, log: seq<Event>)
  {
    function Apply(ops: seq<PortOp>): State {
      this.(pins := After(pins, ops), writes := writes + AllWrites(pins, ops))
    }

    function Save(phase: uint8): State {
      this.(ram := phase, eeprom := phase)
    }
  }

  datatype Input = Input(disableCommand: bool, bat40v: uint8, bat160v: uint8, bat280v: uint8, stat: uint8) {
    function MinBatV(): uint8 {
      var m := if bat40v < bat160v then bat40v else bat160v;
      if m < bat280v then m else bat280v
    }

    predicate ChargingDisabled() {
      disableCommand && MinBatV() > OVERRIDE_CHARGING_DISABLED_VOLTAGE
    }
  }

  /* What each phase does, as tables. */

  const ALL_OFF: seq<PortOp> := [Disable(B40), Disable(B160), Disable(B280)]

  function PortOps(phase: uint8): seq<PortOp> {
    match phase
    case 1 => [Enable(B40)]
    case 2 => [Enable(B40)]
    case 3 => [Enable(B40)]
    case 4 => [Enable(B40)]
    case 5 => [Disable(B40), Enable(B160)]
    case 6 => [Disable(B40), Enable(B160)]
    case 7 => [Enable(B160)]
    case 8 => [Disable(B160), Enable(B280)]
    case 9 => [Disable(B160), Enable(B280)]
    case 10 => [Enable(B280)]
    case _ => ALL_OFF
  }

  predicate Polls(phase: uint8) {
    phase in {2, 4, 6, 7, 9, 10}
  }

  function BatteryOf(phase: uint8): Battery {
    if phase <= 4 then B40 else if phase <= 7 then B160 else B280
  }

  datatype Verdict = Stay | Advance(next: uint8) | Complete | Fail(code: uint8)

  // What a charger's report means in a polling phase.
  function Judge(phase: uint8, stat: uint8): Verdict
    requires Polls(phase)
  {
    if stat == CHARGER_BASE_CHARGE then Stay
    else if stat == CHARGER_TOPOFF_CHARGE then
      (match phase case 2 => Advance(3) case 6 => Advance(7) case 9 => Advance(10) case _ => Stay)
    else if stat == CHARGER_SHUTDOWN then
      (match phase
       case 2 => Fail(212) case 4 => Advance(5) case 6 => Advance(8)
       case 7 => Advance(8) case 9 => Fail(232) case _ => Complete)
    else
      var invalid := stat == CHARGER_INVALID;
      (match phase
       case 2 => Fail(if invalid then 211 else 213)
       case 4 => Fail(if invalid then 214 else 215)
       case 6 => Fail(if invalid then 221 else 223)
       case 7 => Fail(if invalid then 224 else 225)
       case 9 => Fail(if invalid then 231 else 233)
       case _ => Fail(if invalid then 234 else 235))
  }

  // An invalid report blames the link and the charger, an early shutdown the charger
  // alone, an impossible report everything.
  function Blame(flags: Flags, b: Battery, stat: uint8): Flags {
    if stat == CHARGER_INVALID || stat == CHARGER_SHUTDOWN then
      var f := if stat == CHARGER_INVALID then flags.(commError := true) else flags;
      match b
      case B40 => f.(error40 := true)
      case B160 => f.(error160 := true)
      case B280 => f.(error280 := true)
    else
      flags.(commError := true, error40 := true, error160 := true, error280 := true)
  }

  /* One call of charge(). */

  function Unplugged(s: State): State {
    if 0 < s.ram < 11 then s.(ram := CHARGING_INTERRUPTED)
    else if s.ram == FUEL_STATE11 then s.(ram := FUEL_STATE0)
    else s
  }

  function Resumed(s: State, input: Input): State {
    if s.ram != CHARGING_INTERRUPTED then s
    else if input.bat40v < MIN_BAT_CHARGE_VOLTAGE then s.Save(FUEL_STATE0)
    else s.(ram := s.eeprom)
  }

  predicate StartsCharging(s: State, input: Input) {
    && input.bat40v >= MIN_BAT_VOLTAGE && input.bat160v >= MIN_BAT_VOLTAGE && input.bat280v >= MIN_BAT_VOLTAGE
    && (!s.flags.batOk || (!input.ChargingDisabled() && input.bat40v < MIN_BAT_CHARGE_VOLTAGE))
  }

  function Polled(s: State, stat: uint8): State
    requires Polls(s.ram)
  {
    var b := BatteryOf(s.ram);
    var t := s.(log := s.log + [Reported(b, stat)]);
    match Judge(s.ram, stat)
    case Stay => t
    case Advance(next) => t.Save(next)
    case Complete => t.(ram := FUEL_STATE11, eeprom := FUEL_STATE0)
    case Fail(code) => t.(ram := code, flags := Blame(s.flags, b, stat))
  }

  function Phase(s: State, input: Input): State {
    var t := s.Apply(PortOps(s.ram));
    if s.ram == 0 then
      if StartsCharging(s, input) then t.Save(1).(log := s.log + [Started]) else t
    else if s.ram in {1, 3, 5, 8} then t.(ram := s.ram + 1)
    else if s.ram == 4 && input.bat280v < MIN_BAT_VOLTAGE then
      t.Apply([Disable(B40), Disable(B160)]).Save(FUEL_STATE0)
    else if Polls(s.ram) then Polled(t, input.stat)
    else t
  }

  function ChargeStep(s: State, input: Input): State {
    if s.flags.chargeOk then Phase(Resumed(s, input), input) else Unplugged(s)
  }

  // Power-up: every pin floats, charger_init turns all chargers off and restores the phase.
  function PowerUp(eeprom: uint8, log: seq<Event>): State {
    var saved := if eeprom == ERASED then FUEL_STATE0 else eeprom;
    State(saved, saved, NO_FLAGS, Pins(ALL_SET, ALL_CLEAR), [], log)
  }

  /* The firmware's own globals and code. */

  class ChargerDevice {
    var chargeState: uint8
    var eeprom: uint8
    var systemState: Flags
    var shdwnDdr: Lines
    var shdwnPort: Lines
    ghost var writes: seq<Pins>
    ghost var log: seq<Event>

    ghost function Model(): State
      reads this
    {
      State(chargeState, eeprom, systemState, Pins(shdwnDdr, shdwnPort), writes, log)
    }

    method Disable(b: Battery)
      modifies this`shdwnPort, this`shdwnDdr, this`writes
      ensures Model() == old(Model()).Apply([PortOp.Disable(b)])
    {
      OneOp(Pins(shdwnDdr, shdwnPort), PortOp.Disable(b));
      shdwnPort := shdwnPort.Set(b, false);
      writes := writes + [Pins(shdwnDdr, shdwnPort)];
      shdwnDdr := shdwnDdr.Set(b, true);
      writes := writes + [Pins(shdwnDdr, shdwnPort)];
    }

    method Enable(b: Battery)
      modifies this`shdwnDdr, this`writes
      ensures Model() == old(Model()).Apply([PortOp.Enable(b)])
    {
      OneOp(Pins(shdwnDdr, shdwnPort), PortOp.Enable(b));
      shdwnDdr := shdwnDdr.Set(b, false);
      writes := writes + [Pins(shdwnDdr, shdwnPort)];
    }

    method DisableAll()
      modifies this`shdwnPort, this`shdwnDdr, this`writes
      ensures Model() == old(Model()).Apply(ALL_OFF)
    {
      ghost var s := Model();
      Disable(B40);
      Disable(B160);
      Disable(B280);
      ApplyTwice(s, [PortOp.Disable(B40)], [PortOp.Disable(B160)]);
      ApplyTwice(s, [PortOp.Disable(B40), PortOp.Disable(B160)], [PortOp.Disable(B280)]);
      assert [PortOp.Disable(B40)] + [PortOp.Disable(B160)] == [PortOp.Disable(B40), PortOp.Disable(B160)];
      assert [PortOp.Disable(B40), PortOp.Disable(B160)] + [PortOp.Disable(B280)] == ALL_OFF;
    }

    method DisableEnable(off: Battery, on: Battery)
      modifies this`shdwnPort, this`shdwnDdr, this`writes
      ensures Model() == old(Model()).Apply([PortOp.Disable(off), PortOp.Enable(on)])
    {
      ghost var s := Model();
      Disable(off);
      Enable(on);
      ApplyTwice(s, [PortOp.Disable(off)], [PortOp.Enable(on)]);
      assert [PortOp.Disable(off)] + [PortOp.Enable(on)] == [PortOp.Disable(off), PortOp.Enable(on)];
    }

    method SetChargeState(newState: uint8)
      modifies this`chargeState, this`eeprom
      ensures Model() == old(Model()).Save(newState)
    {
      chargeState := newState;
      eeprom := newState;
    }

    method ReadChargeState()
      modifies this`chargeState
      ensures chargeState == eeprom
    {
      chargeState := eeprom;
    }

    // Power-up of the charger part: the registers reset to zero before charger_init runs.
    method ChargerInit()
      modifies this
      ensures Model() == PowerUp(old(eeprom), old(log)).(writes := writes)
      // The only moment with several chargers on: they are turned off one by one.
      ensures writes == AllWrites(Pins(ALL_CLEAR, ALL_CLEAR), ALL_OFF)
    {
      shdwnDdr, shdwnPort, systemState, writes := ALL_CLEAR, ALL_CLEAR, NO_FLAGS, [];
      DisableAll();
      ReadChargeState();
      if chargeState == ERASED {
        SetChargeState(0);
      }
      AllOffIsOff(Pins(ALL_CLEAR, ALL_CLEAR));
    }

    method SetErrors(b: Battery, stat: uint8)
      modifies this`systemState
      ensures systemState == Blame(old(systemState), b, stat)
    {
      if stat == CHARGER_INVALID || stat == CHARGER_SHUTDOWN {
        if stat == CHARGER_INVALID {
          systemState := systemState.(commError := true);
        }
        match b
        case B40 => systemState := systemState.(error40 := true);
        case B160 => systemState := systemState.(error160 := true);
        case B280 => systemState := systemState.(error280 := true);
      } else {
        systemState := systemState.(commError := true, error40 := true, error160 := true, error280 := true);
      }
    }

    method Charge(input: Input)
      modifies this
      ensures Model() == ChargeStep(old(Model()), input)
    {
      if !systemState.chargeOk {
        if chargeState > FUEL_STATE0 && chargeState < FUEL_STATE11 {
          chargeState := CHARGING_INTERRUPTED;
        }
        if chargeState == FUEL_STATE11 {
          chargeState := FUEL_STATE0;
        }
        return;
      } else if chargeState == CHARGING_INTERRUPTED {
        if input.bat40v < MIN_BAT_CHARGE_VOLTAGE {
          SetChargeState(FUEL_STATE0);
        } else {
          ReadChargeState();
        }
      }
      RunPhase(input);
    }

    method DisableBoth(b: Battery, c: Battery)
      modifies this`shdwnPort, this`shdwnDdr, this`writes
      ensures Model() == old(Model()).Apply([PortOp.Disable(b), PortOp.Disable(c)])
    {
      ghost var s := Model();
      Disable(b);
      Disable(c);
      ApplyTwice(s, [PortOp.Disable(b)], [PortOp.Disable(c)]);
      assert [PortOp.Disable(b)] + [PortOp.Disable(c)] == [PortOp.Disable(b), PortOp.Disable(c)];
    }

    method Poll2(stat: uint8)
      requires chargeState == 2
      modifies this`chargeState, this`eeprom, this`systemState, this`log
      ensures Model() == Polled(old(Model()), stat)
    {
      log := log + [Reported(B40, stat)];
      match stat {
        case 0 =>
        case 1 =>
          SetErrors(B40, stat);
          chargeState := 211;
        case 2 =>
          SetChargeState(3);
        case 3 =>
          SetErrors(B40, stat);
          chargeState := 212;
        case _ =>
          SetErrors(B40, stat);
          chargeState := 213;
      }
    }

    method Poll4(stat: uint8)
      requires chargeState == 4
      modifies this`chargeState, this`eeprom, this`systemState, this`log
      ensures Model() == Polled(old(Model()), stat)
    {
      log := log + [Reported(B40, stat)];
      match stat {
        case 0 =>
        case 1 =>
          SetErrors(B40, stat);
          chargeState := 214;
        case 2 =>
        case 3 =>
          SetChargeState(5);
        case _ =>
          SetErrors(B40, stat);
          chargeState := 215;
      }
    }

    method Poll6(stat: uint8)
      requires chargeState == 6
      modifies this`chargeState, this`eeprom, this`systemState, this`log
      ensures Model() == Polled(old(Model()), stat)
    {
      log := log + [Reported(B160, stat)];
      match stat {
        case 0 =>
        case 1 =>
          SetErrors(B160, stat);
          chargeState := 221;
        case 2 =>
          SetChargeState(7);
        case 3 =>
          SetChargeState(8);
        case _ =>
          SetErrors(B160, stat);
          chargeState := 223;
      }
    }

    method Poll7(stat: uint8)
      requires chargeState == 7
      modifies this`chargeState, this`eeprom, this`systemState, this`log
      ensures Model() == Polled(old(Model()), stat)
    {
      log := log + [Reported(B160, stat)];
      match stat {
        case 0 =>
        case 1 =>
          SetErrors(B160, stat);
          chargeState := 224;
        case 2 =>
        case 3 =>
          SetChargeState(8);
        case _ =>
          SetErrors(B160, stat);
          chargeState := 225;
      }
    }

    method Poll9(stat: uint8)
      requires chargeState == 9
      modifies this`chargeState, this`eeprom, this`systemState, this`log
      ensures Model() == Polled(old(Model()), stat)
    {
      log := log + [Reported(B280, stat)];
      match stat {
        case 0 =>
        case 1 =>
          SetErrors(B280, stat);
          chargeState := 231;
        case 2 =>
          SetChargeState(10);
        case 3 =>
          SetErrors(B280, stat);
          chargeState := 232;
        case _ =>
          SetErrors(B280, stat);
          chargeState := 233;
      }
    }

    method Poll10(stat: uint8)
      requires chargeState == 10
      modifies this`chargeState, this`eeprom, this`systemState, this`log
      ensures Model() == Polled(old(Model()), stat)
    {
      log := log + [Reported(B280, stat)];
      match stat {
        case 0 =>
        case 1 =>
          SetErrors(B280, stat);
          chargeState := 234;
        case 2 =>
        case 3 =>
          SetChargeState(FUEL_STATE0);
          chargeState := FUEL_STATE11;
        case _ =>
          SetErrors(B280, stat);
          chargeState := 235;
      }
    }

    // The switch on charge_state.
    method RunPhase(input: Input)
      modifies this
      ensures Model() == Phase(old(Model()), input)
    {
      hide Polled, AllWrites, After;
      match chargeState {
        case 0 =>
          DisableAll();
          if input.bat40v < MIN_BAT_VOLTAGE || input.bat160v < MIN_BAT_VOLTAGE || input.bat280v < MIN_BAT_VOLTAGE {
            return;
          }
          if !systemState.batOk {
            SetChargeState(1);
            log := log + [Started];
          } else if !input.ChargingDisabled() {
            if input.bat40v < MIN_BAT_CHARGE_VOLTAGE {
              SetChargeState(1);
              log := log + [Started];
            }
          }
        case 1 =>
          Enable(B40);
          chargeState := 2;
        case 2 =>
          Enable(B40);
          Poll2(input.stat);
        case 3 =>
          Enable(B40);
          chargeState := 4;
        case 4 =>
          Enable(B40);
          if input.bat280v < MIN_BAT_VOLTAGE {
            DisableBoth(B40, B160);
            SetChargeState(FUEL_STATE0);
          } else {
            Poll4(input.stat);
          }
        case 5 =>
          DisableEnable(B40, B160);
          chargeState := 6;
        case 6 =>
          DisableEnable(B40, B160);
          Poll6(input.stat);
        case 7 =>
          Enable(B160);
          Poll7(input.stat);
        case 8 =>
          DisableEnable(B160, B280);
          chargeState := 9;
        case 9 =>
          DisableEnable(B160, B280);
          Poll9(input.stat);
        case 10 =>
          Enable(B280);
          Poll10(input.stat);
        case _ =>
          DisableAll();
      }
    }
  }

  lemma OneOp(pins: Pins, op: PortOp)
    ensures AllWrites(pins, [op]) == Writes(pins, op)
    ensures After(pins, [op]) == Last(Writes(pins, op))
  {
    assert [op][1..] == [];
  }

  lemma {:induction false} AfterConcat(pins: Pins, a: seq<PortOp>, b: seq<PortOp>)
    ensures After(pins, a + b) == After(After(pins, a), b)
    ensures AllWrites(pins, a + b) == AllWrites(pins, a) + AllWrites(After(pins, a), b)
    decreases |a|
  {
    if a == [] {
      assert a + b == b;
    } else {
      assert (a + b)[1..] == a[1..] + b;
      AfterConcat(Last(Writes(pins, a[0])), a[1..], b);
    }
  }

  lemma ApplyTwice(s: State, a: seq<PortOp>, b: seq<PortOp>)
    ensures s.Apply(a).Apply(b) == s.Apply(a + b)
  {
    AfterConcat(s.pins, a, b);
  }

  lemma AllOffIsOff(pins: Pins)
    ensures After(pins, ALL_OFF) == Pins(ALL_SET, ALL_CLEAR)
  {
    AfterConcat(pins, [Disable(B40), Disable(B160)], [Disable(B280)]);
    AfterConcat(pins, [Disable(B40)], [Disable(B160)]);
    assert ALL_OFF == [Disable(B40)] + [Disable(B160)] + [Disable(B280)];
    assert [Disable(B40)] + [Disable(B160)] == [Disable(B40), Disable(B160)];
  }
}
