/**
  What the robot does to its drive on the host's commands.
*/
module RobotDrive {
  import opened Words
  import opened CommandStream
  import opened CommandLink
  import Slew
  import SlewRuns

  // The drive's commands that an action comes to; the others do not touch the drive.
  function Orders(a: Action): seq<SlewRuns.Command> {
    match a
    case Slew(m1, m2, m3) => [SlewRuns.SlewCommand([m1, m2, m3])]
    case XyTheta(m1, m2, m3) => [SlewRuns.XyThetaCommand(m1, m2, m3)]
    case Voltage(m1, m2, m3) => [SlewRuns.VoltageCommand([m1, m2, m3])]
    case Halt => [SlewRuns.WheelCommand(0, 0), SlewRuns.WheelCommand(1, 0), SlewRuns.WheelCommand(2, 0)]
    case _ => []
  }

  lemma OneOrder(m: Slew.Motors, c: SlewRuns.Command)
    requires SlewRuns.Defined(m, c)
    ensures SlewRuns.AllDefined(m, [c]) && SlewRuns.Run(m, [c]) == SlewRuns.Next(m, c)
  {
    hide SlewRuns.Next, SlewRuns.Defined;
    assert [c][1..] == [];
    assert SlewRuns.AllDefined(SlewRuns.Next(m, c), []);
  }

  lemma FirstDefined(m: Slew.Motors, cs: seq<SlewRuns.Command>)
    requires SlewRuns.AllDefined(m, cs) && cs != []
    ensures SlewRuns.Defined(m, cs[0])
  {
  }

  // Carries an action out on the drive.
  method Obey(driver: Slew.MotorDriver, a: Action)
    requires driver.Valid() && SlewRuns.AllDefined(driver.Model(), Orders(a))
    modifies driver, driver.speed, driver.final, driver.float, driver.interval
    ensures driver.Valid() && SlewRuns.AllDefined(old(driver.Model()), Orders(a))
    ensures driver.Model() == SlewRuns.Run(old(driver.Model()), Orders(a))
  {
    hide SlewRuns.AllDefined, SlewRuns.Run, Slew.SlewTo, Slew.SetVoltage, Slew.SetWheel, Slew.XyTheta;
    ghost var m := driver.Model();
    NoOrder(m);
    match a {
      case Slew(m1, m2, m3) =>
        FirstDefined(m, Orders(a));
        OneOrder(m, Orders(a)[0]);
        driver.SetSpeedSlew(m1, m2, m3);
      case XyTheta(m1, m2, m3) =>
        FirstDefined(m, Orders(a));
        OneOrder(m, Orders(a)[0]);
        driver.SetSpeedXyTheta(m1, m2, m3);
      case Voltage(m1, m2, m3) =>
        OneOrder(m, Orders(a)[0]);
        driver.SetMotorVoltage(m1, m2, m3);
      case Halt =>
        SlewRuns.HaltByHand(m);
        driver.SetMotorSpeed(0, 0);
        driver.SetMotorSpeed(1, 0);
        driver.SetMotorSpeed(2, 0);
      case _ =>
    }
  }

  lemma NoOrder(m: Slew.Motors)
    ensures SlewRuns.AllDefined(m, []) && SlewRuns.Run(m, []) == m
  {
  }

  // Of the host's actions that one call finds, the last one reaches the drive: as the slew,
  // the body velocity or the voltage that the host's enumeration names.  An unknown mode
  // below the special ones sets all wheels to zero, which lasts exactly if no ramp is pending
  // or one that is at zero from the next event on.
  lemma LastDropDrives(drops: seq<Drop>, d: Drop, m: Slew.Motors)
    requires SlewRuns.InRange(m)
    ensures var orders := Orders(LastAction(Meanings(drops + [d]), false));
            var v: Slew.Target := [ToInt8(d.x), ToInt8(d.y), ToInt8(d.theta)];
            && (d.motorMode == WHEEL_SPACE ==> orders == [SlewRuns.SlewCommand(v)])
            && (d.motorMode == XYTHETA_SPACE ==> orders == [SlewRuns.XyThetaCommand(v[0], v[1], v[2])])
            && (d.motorMode == WHEEL_VOLTAGE ==> orders == [SlewRuns.VoltageCommand(v)])
            && (WHEEL_VOLTAGE < d.motorMode < MOTOR_EXIT ==>
                  && SlewRuns.AllDefined(m, orders)
                  && SlewRuns.Stopped(SlewRuns.Run(m, orders))
                  && (SlewRuns.StaysStopped(SlewRuns.Run(m, orders)) <==> m.count > m.steps || SlewRuns.RampAtZero(m)))
  {
    hide ToInt8;
    LastDropActs(drops, d);
    hide LastAction, Meanings, SlewRuns.InRange, SlewRuns.StaysStopped, SlewRuns.RampAtZero, SlewRuns.Stopped;
    hide SlewRuns.AllDefined, SlewRuns.Run, SlewRuns.Halted;
    SlewRuns.HaltByHand(m);
    SlewRuns.HaltedParts(m);
    SlewRuns.HaltHoldsIff(m);
  }
}
