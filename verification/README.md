# Critterbot control software: a model and its properties

The Critterbot is a wheeled robot with an ARM main controller, AVR controllers for power and for
each wheel, and a host computer on a serial line. This project models the state machines,
protocols and bounded arithmetic of that software, and proves what holds of them for every input,
every sequence of events and every power cycle.

Each module holds a reference (functions on values) and the code in its own form (classes whose
methods change fields and arrays, loops with invariants). Every method's contract ties the code to
the reference; the lemmas are about the reference, over whole runs where that is the point.

| files | subject |
|---|---|
| `Gf2`, `CrcTables`, `Crc`, `DoubleErrors` | the table-driven CRC-16 against polynomial division, and the errors it detects |
| `Boot`, `Upload` | reception, verification and flashing of a program image, from the uploader to flash |
| `Charger`, `ChargerRuns`, `ChargerProgress` | the battery charger's phase machine with its EEPROM checkpoint: safety, and what it does when |
| `Power`, `PowerSwitching` | the power board's main loop |
| `Slew`, `Kinematics`, `SlewRuns`, `DriveCommands` | omni-drive scaling and its geometry, the fixed-point slew and the command timeout |
| `HBridge`, `WheelControl`, `CurrentRuns`, `PidRuns`, `MotorLink` | the wheel controller: output bridge, limits, PID, watchdog, SPI slave |
| `SpiQueue` | the linked queue of SPI packets shared with the interrupt routine |
| `SerialRing` | the DMA ring with its character and line readers |
| `CommandStream`, `CommandLink`, `RobotDrive` | commands from host to robot, at both ends, and what they do to the drive |
| `StatusFrames`, `StatusSender`, `StatusPort`, `StatusLink`, `StatusHost` | status packets from robot to host, at both ends |
| `NumberText` | printing and reading integers |
| `Words`, `Wrappers` | machine integers, division as C and the processors do it; optional values |

Registers, ports and packets are fields; interrupts, arriving bytes, sampled voltages, charger
reports and elapsed time are parameters of the steps that see them. One call of a step is atomic.

## Where the code and its documentation disagree

The model follows the code in each case.

- The tail of a program image is padded with what the receive buffer holds behind it (its CRC first),
  not with zeros (`firmware/arm/lib_boot.c:65`), and an image that already ends on a word boundary
  gets one word more.
- The drive is capped at 15805/127 tenths of a volt, about 12.44 V, and cut above 18.5 V; the
  comment says 12 V and 17.5 V (`firmware/avr/CritterbotAVRMotor/avr_motor.c:179-181`).
- The bus recovers above 170; the comment says 160 (`firmware/avr/CritterbotAVRPower/critterbot_power.c:208`).
- Disabled commands still leave charging, the reference voltage and the amplifier within reach, while
  the header promises only the return to the user interface (`firmware/arm/lib_mi.h:20-21`).
- The character count is one too high whenever the unread bytes go around the end of the ring
  (`firmware/arm/armio.c:358`), so the command parser can take a missing byte to be there.
- `armatoi` counts one character too few after a plus sign, and `armitoa` can need more room than
  the 32 characters its callers give it (`firmware/arm/armio.h:19`).
- The colours a command carries never select the custom lighting: the flag for it is set after a
  `break` (`firmware/arm/lib_mi.c:210-211`).
- The status packet's CRC is never looked at by the host, and its ten distances lose their low bits
  in the host's decoding.

## Model

| member | source | states |
|---|---|---|
| CrcTables.CrcTable | firmware/arm/crctable.h:25-59 | each of the 256 entries is eight bit-serial steps on its index |
| Gf2.DivisionIdentity | firmware/arm/crctable.h:5-17 | the shift register computes division with remainder by the generator polynomial, in coefficients: dividend = quotient times generator plus remainder |
| Gf2.ProductPlusRemainderIsUnique | firmware/arm/crctable.h:5-17 | that decomposition is unique, so the register's content is the remainder |
| Gf2.DividesIffMultiple | firmware/arm/crctable.h:5-17 | the register ends at zero exactly for multiples of the generator |
| Gf2.DivideLinear | firmware/arm/crctable.h:5-17 | division commutes with bitwise sum |
| Gf2.DivideZerosKernel | firmware/arm/crctable.h:5-17 | zero bits never take a nonzero register to zero: the zero-bit step is injective |
| Gf2.DivideKeepsParity | firmware/arm/crctable.h:5-17 | the generator has an even number of terms, so division keeps the parity of a message |
| Crc.TableStepDivides | firmware/arm/lib_boot.c:166-167 | one table step equals feeding eight message bits and sixteen zeros to the bit-serial register |
| Crc.TableCrcIsPolynomialDivision | firmware/arm/lib_boot.c:161-169 | for every byte string the table CRC is the remainder of the message with sixteen zero bits appended |
| Crc.TableCrcConcat | firmware/arm/lib_mi.c:48-52 | the CRC may be stopped and resumed at any byte |
| Crc.SenderIsAccepted | firmware/programmer/critterprog.c:80-96 | the trailer the uploader appends passes the receiver's check |
| Crc.AcceptsIffZeroRemainder | firmware/arm/lib_boot.c:143-159 | data pass the check exactly when the whole of it, trailer included, divides evenly |
| Crc.AcceptedFramesAreMultiples | firmware/arm/lib_boot.c:143-159 | the accepted byte strings are exactly the multiples of the generator, as products of polynomials |
| Crc.BurstDetection | firmware/arm/lib_boot.c:143-169 | two distinct accepted strings of equal length differ over a span of more than sixteen bits, for every length |
| Crc.OddErrorDetection | firmware/arm/lib_boot.c:143-169 | two accepted strings of equal length differ in an even number of bits |
| Crc.SeventeenBitBurstPasses | firmware/arm/lib_boot.c:143-169 | the burst bound is exact: two accepted frames whose difference runs from bit 7 to bit 23, over seventeen bits |
| DoubleErrors.OrderIff | firmware/arm/crctable.h:5-17 | x to the d is 1 modulo the generator exactly if 32767 divides d |
| DoubleErrors.TwoBitsDivideIff | firmware/arm/crctable.h:5-17 | two set bits, d apart and anywhere in a message, divide evenly exactly if 32767 divides d |
| DoubleErrors.DoubleErrorPassesIff | firmware/arm/lib_boot.c:143-169 | a string that differs from an accepted one in exactly two bits is accepted, too, exactly if their distance is a multiple of 32767 |
| DoubleErrors.DoubleErrorPasses | firmware/arm/lib_boot.c:143-169 | two accepted strings of 4096 bytes that differ in their first and last bits alone |
| Flash.FlashDevice.WriteData | firmware/arm/lib_flash.c:42-59 | succeeds exactly for 1 to 64 words inside flash, and then has loaded exactly those words into the page buffer, around its end if need be |
| Flash.FlashDevice.EraseWritePage | firmware/arm/lib_flash.c:21-40 | programs exactly the named page, or reports the lock or programming error that polling finds and changes nothing |
| Boot.GetCrc | firmware/arm/lib_boot.c:161-169 | the loop computes the table CRC of the first bytes of the buffer |
| Boot.Bootloader.BeginReceive | firmware/arm/lib_boot.c:223-233 | reception starts with nothing received and no good CRC |
| Boot.Bootloader.Verify | firmware/arm/lib_boot.c:143-159 | the CRC is good exactly when the bytes received pass the check |
| Boot.Bootloader.Store | firmware/arm/lib_boot.c:204-213 | every byte is accounted for; excess bytes raise an error and never enter the buffer |
| Boot.Bootloader.Event | firmware/arm/lib_boot.c:175-218 | the CRC becomes good only after a silent timeout with exactly the announced number of bytes counted and a frame that passes; the error flag is raised exactly by too few bytes at the timeout, or by a byte in excess while receiving |
| Boot.Bootloader.CopyPage | firmware/arm/lib_boot.c:71-106 | one more page extends the copied part of the image and leaves later pages alone; the word count is in range |
| Boot.Bootloader.CopyFullPages | firmware/arm/lib_boot.c:71-90 | the page loop writes pages 0, 1, 2, ... once each, up to the first that cannot be programmed |
| Boot.Bootloader.Core | firmware/arm/lib_boot.c:38-131 | after a reset flash starts with the image, every page is written once in order and later pages are unchanged; otherwise it hangs at the first page that cannot be programmed |
| Boot.TailIsWholeWords | firmware/arm/lib_boot.c:60-66 | the tail length passes the driver's check for every image that fits, and stays inside the buffer |
| Upload.Send | firmware/programmer/critterprog.c:76-96 | the wire carries the file and the CRC of everything after its first carriage return |
| Upload.ImageFollowsCommand | firmware/programmer/critterprog.c:76-96 | that part of the file is the image, whatever the command line before it, and empty without one |
| Upload.Receive | firmware/arm/lib_boot.c:175-233 | however the bytes are spread over events, the verdict depends on the last bytes received and their count alone |
| Upload.Reflash | firmware/arm/lib_boot.c:38-233 | an image sent with the uploader's trailer, in any pieces, ends up in flash, exactly if every page it needs can be programmed |
| Charger.ChargerDevice.Disable | firmware/avr/CritterbotAVRPower/power_avr_utils.c:54-75 | the two port writes of turning a charger off, in order |
| Charger.ChargerDevice.Enable | firmware/avr/CritterbotAVRPower/power_avr_utils.c:59-79 | the one port write of turning a charger on |
| Charger.ChargerDevice.ChargerInit | firmware/avr/CritterbotAVRPower/power_avr_utils.c:81-89 | power-up leaves every charger off and restores the saved phase, an erased byte counting as phase 0 |
| Charger.ChargerDevice.SetChargeState | firmware/avr/CritterbotAVRPower/power_avr_charge.c:19-23 | phase and checkpoint change together |
| Charger.ChargerDevice.Charge | firmware/avr/CritterbotAVRPower/power_avr_charge.c:29-75 | one call is unplugging, resuming or the current phase of the reference machine |
| Charger.ChargerDevice.RunPhase | firmware/avr/CritterbotAVRPower/power_avr_charge.c:76-336 | the switch does what the phase tables say: port writes, checkpoints, error codes and blame; ChargerProgress says what that comes to |
| ChargerRuns.OneOpSafe | firmware/avr/CritterbotAVRPower/power_avr_utils.c:54-79 | turning a charger off is always safe, turning one on is when no other may be on |
| ChargerRuns.RunSafe | firmware/avr/CritterbotAVRPower/power_avr_charge.c:29-336 | the invariant of phase, checkpoint and pins, over all runs with power cycles |
| ChargerRuns.ChargerExclusion | firmware/avr/CritterbotAVRPower/power_avr_charge.c:76-336 | after every single port write of every run at most one charger is on |
| ChargerRuns.CheckpointInvariant | firmware/avr/CritterbotAVRPower/power_avr_charge.c:19-27 | the checkpoint is the running phase or its predecessor on the same battery, and a power cycle resumes there |
| ChargerRuns.ReplugResumesCheckpoint | firmware/avr/CritterbotAVRPower/power_avr_charge.c:46-75 | unplugging and replugging resumes from the checkpoint, too |
| ChargerRuns.ProgressWitnesses | firmware/avr/CritterbotAVRPower/power_avr_charge.c:76-336 | the progress counter stands for reports at increasing positions of the history, with no restart since |
| ChargerRuns.CompleteOnlyAfterAllChargers | firmware/avr/CritterbotAVRPower/power_avr_charge.c:76-336 | from an empty EEPROM, charging completes only after charger 40 reported top-off then shutdown, 160 shutdown, 280 top-off then shutdown, in that order |
| ChargerRuns.ImpossibleStatusCodesUnused | firmware/avr/CritterbotAVRPower/power_avr_utils.c:98-153 | a status built from two pin samples never reaches the codes for an impossible status |
| ChargerProgress.ChargerOnIff | firmware/avr/CritterbotAVRPower/power_avr_charge.c:76-336 | in every run, after a tick with a supply, the charger of the executed phase is on, and no other; in phases 0 and 11, in error states, and in phase 4 with battery 280 missing, none |
| ChargerProgress.StartsIff | firmware/avr/CritterbotAVRPower/power_avr_charge.c:78-111 | charging starts exactly with all batteries there, and either an imbalance or battery 40 low and charging not disabled |
| ChargerProgress.UnpluggedIff | firmware/avr/CritterbotAVRPower/power_avr_charge.c:46-61 | without a supply a running phase becomes interrupted, a complete one idle, others stay, and the checkpoint always |
| ChargerProgress.ReplugStartsOver | firmware/avr/CritterbotAVRPower/power_avr_charge.c:62-69 | a replug with battery 40 low is a start from phase 0 |
| ChargerProgress.ChargingProgress | firmware/avr/CritterbotAVRPower/power_avr_charge.c:76-336 | every tick whose report is what the phase waits for brings charging one phase further, and one with a busy charger none |
| ChargerProgress.ChargingCompletes | firmware/avr/CritterbotAVRPower/power_avr_charge.c:76-336 | from phase 0, with the batteries there and reason to start, charging is complete exactly after ten of them |
| ChargerProgress.TopOffOf160 | firmware/avr/CritterbotAVRPower/power_avr_charge.c:198-256 | charger 160 may go through a top-off phase in between |
| ChargerProgress.MissingBatteryStartsOver | firmware/avr/CritterbotAVRPower/power_avr_charge.c:154-165 | phase 4 without battery 280 goes back to the start, saved |
| ChargerProgress.FailsIff | firmware/avr/CritterbotAVRPower/power_avr_charge.c:114-335 | charging fails exactly by an invalid or impossible report in a polling phase, or a shutdown before the top-off of battery 40 or 280 |
| ChargerProgress.FailureCode | firmware/avr/CritterbotAVRPower/power_avr_charge.c:114-335 | the error code names the battery and the report |
| ChargerProgress.FailureBlames | firmware/avr/CritterbotAVRPower/power_avr_charge.c:114-335 | which error bits a failure sets, and that it sets no others |
| Power.PowerBoard.BatteryLevelOkay | firmware/avr/CritterbotAVRPower/critterbot_power.c:159-203 | the balance flag follows a counter with hysteresis, over any pair of batteries that differ |
| Power.PowerBoard.SystemVoltageOkay | firmware/avr/CritterbotAVRPower/critterbot_power.c:210-233 | the bus flag follows the low-reading counter and its latch |
| Power.PowerBoard.ChargeOkay | firmware/avr/CritterbotAVRPower/critterbot_power.c:238-256 | the supply flag is up exactly while the up-down counter is full |
| Power.PowerBoard.SetSwitches | firmware/avr/CritterbotAVRPower/critterbot_power.c:314-393 | the battery and processor switches for every system state; PowerSwitching.MainSwitches says which |
| Power.PowerBoard.MainRound | firmware/avr/CritterbotAVRPower/critterbot_power.c:296-405 | one turn of the main loop is sampling, switches, charger |
| Power.NextConsistent | firmware/avr/CritterbotAVRPower/critterbot_power.c:355-379 | a supply is reported only with a good bus, so the two states the switch calls invalid never come up |
| Power.RunConsistent | firmware/avr/CritterbotAVRPower/critterbot_power.c:274-405 | over all runs of start-up sampling, main rounds and power cycles, with the charger's invariant and an error bit for every failed charger |
| Power.RunDebounced | firmware/avr/CritterbotAVRPower/critterbot_power.c:258-312 | in every run the board's balance and bus flags, counters and latch are the debouncers applied to all it sampled since power-up |
| Power.BusOffIff | firmware/avr/CritterbotAVRPower/critterbot_power.c:205-233 | in every run VOLTAGE_OK is down exactly after fifty low readings in a row with none above 170 since, counted from power-up |
| Power.BalanceChangesApart | firmware/avr/CritterbotAVRPower/critterbot_power.c:159-203 | in every run opposite changes of BAT_OK have at least four rounds of sampling from one to the other |
| Power.ErrorsShutDown | firmware/avr/CritterbotAVRPower/critterbot_power.c:383-392 | once an error bit is set, every later round leaves all batteries and the processor off |
| Power.FailureShutsDown | firmware/avr/CritterbotAVRPower/critterbot_power.c:383-396 | in every run, whatever phase a charger failed in, a replug's own call included, every later round has everything switched off |
| PowerSwitching.MainSwitches | firmware/avr/CritterbotAVRPower/critterbot_power.c:314-396 | in every run, a main round without an error bit: on batteries alone, all are on if balanced, and the processor exactly with a good bus and its switch; unbalanced, all is off; with a supply the batteries stay and the processor follows its switch; and the charger has one tick exactly with the charge switch on |
| PowerSwitching.FlagsSettle | firmware/avr/CritterbotAVRPower/critterbot_power.c:159-256 | after any run seven rounds with some pair of batteries more than two apart take BAT_OK down, seven with none set it; ten with more than 172 on the bus set CHARGE_OK, one with less takes it down |
| Slew.MotorDriver.SetSpeedSlew | firmware/arm/lib_motor.c:236-283 | a new target starts a ramp from the current speeds; a repeated one only feeds the timeout |
| Slew.MotorDriver.SetSpeedXyTheta | firmware/arm/lib_motor.c:206-234 | slews to the scaled wheel speeds of a body velocity, which Kinematics relates to the body's motion |
| Slew.MotorDriver.SetMotorSpeed | firmware/arm/lib_motor.c:192-204 | sets one wheel, bounded, and leaves the others |
| Slew.MotorDriver.SetMotorVoltage | firmware/arm/lib_motor.c:285-293 | sets all three wheels and leaves slew mode |
| Slew.MotorDriver.MotorEvent | firmware/arm/lib_motor.c:114-190 | timeout, ramp step and the packets for the wheels, with a zero setpoint while charging or disabled |
| Slew.ScaledWheel | firmware/arm/lib_motor.c:221-225 | scaling keeps direction and range, and gives the fastest wheel the whole range |
| Slew.XyThetaInRange | firmware/arm/lib_motor.c:206-234 | every body velocity yields wheel speeds within 100, in the directions asked for |
| Kinematics.TargetsFollowGeometry | firmware/arm/lib_motor.h:39-47 | before scaling, each wheel is asked for the rim speed that the body velocity has at the wheel's angle, 100, 220 or 340 degrees, to within 1.16; scaling is in proportion |
| Kinematics.MovesAsCommanded | firmware/arm/lib_motor.c:206-234 | the motion of the body, computed back from the three wheel speeds, is the one commanded to within five thirds, or, when the fastest wheel would exceed 100, in that proportion to it |
| Kinematics.RotationIsEven | firmware/arm/lib_motor.c:206-234 | turning on the spot drives all wheels alike, as fast as the turn demands |
| Kinematics.StraightAlongX | firmware/arm/lib_motor.c:206-234 | straight along x wheel 100 goes back and the others go on, 220 the faster |
| Kinematics.StraightAlongY | firmware/arm/lib_motor.c:206-234 | straight along y wheel 340 goes back and the others go on, 220 the faster |
| SlewRuns.RampArithmetic | firmware/arm/lib_motor.c:273-278 | the fixed-point ramp stays between zero and the distance and falls short by less than a step |
| SlewRuns.SpeedsInRange | firmware/arm/lib_motor.c:114-293 | over every run of slew, x-y-theta, voltage and single-wheel commands and events every wheel speed stays within 100 |
| SlewRuns.SlewIsSmooth | firmware/arm/lib_motor.c:130-143 | over slew and x-y-theta commands, mid-slew ones included, a wheel moves by at most 1 per event, the final snap included, and stays between start and target |
| SlewRuns.ArrivesOnTime | firmware/arm/lib_motor.c:130-143 | the target is reached after exactly steps + 1 uninterrupted events, along the linear ramp; repetitions of the target, slew or x-y-theta, do not interrupt |
| DriveCommands.SlewFollowsLine | firmware/arm/lib_motor.c:114-283 | after any run of commands a slew takes every wheel along the straight line from its speed to the one asked for, rounded down by at most one, in as many events as the farthest has to go, and there in one more |
| DriveCommands.UninterruptedUntilTimeout | firmware/arm/lib_motor.c:119-127 | left alone, a ramp is not interrupted before the fiftieth event |
| DriveCommands.VoltageSets | firmware/arm/lib_motor.c:285-293 | a voltage command gives each wheel its own speed, within 100, keeps the ramp and starts the timeout anew |
| DriveCommands.WheelSets | firmware/arm/lib_motor.c:192-204 | a single-wheel command sets that wheel alone, if there is one, and does not hold off the timeout |
| DriveCommands.DirectLasts | firmware/arm/lib_motor.c:119-127 | with no ramp pending such speeds last until the fiftieth event exactly, and are zero from then on |
| SlewRuns.IdleDefinedIff | firmware/arm/lib_motor.c:114-143 | left alone in slew mode, the code divides by zero exactly if the timeout is reached, the target is not zero, and each wheel's ramp is at zero at that tick: a condition on the present state |
| SlewRuns.SafeStopIff | firmware/arm/lib_motor.c:114-143 | after any run, in slew mode and without further commands, all wheels rest after 150 events and stay so, if and only if no leftover voltage speed was mistaken for the target reached and that division does not occur |
| SlewRuns.SafeStopDirect | firmware/arm/lib_motor.c:114-143 | after any run, in voltage mode and without further commands, nothing divides, and all wheels rest after 251 events and stay so |
| SlewRuns.TimeoutOverriddenByRamp | firmware/arm/lib_motor.c:121-143 | the first timeout alone does not stop them: a run in which a pending ramp has them at 50 after it |
| SlewRuns.HaltHoldsIff | firmware/arm/lib_motor.c:192-204 | three wheels set to zero stand still for good, without further commands, exactly if no ramp is pending or one that is at zero from the next event on |
| SlewRuns.HaltOverriddenByRamp | firmware/arm/lib_motor.c:130-143 | and turn again at the next event with a ramp to 100 pending |
| SlewRuns.SlewCommandsNeverStick | firmware/arm/lib_motor.c:236-283 | without voltage commands that never happens |
| SlewRuns.StuckIsReachable | firmware/arm/lib_motor.c:255-257 | with one it can |
| SlewRuns.TimeoutCanDivideByZero | firmware/arm/lib_motor.c:114-127 | a run that meets that condition, and in which the division by zero occurs |
| HBridge.BridgeDriver.SetVoltage | firmware/avr/CritterbotAVRMotor/avr_motor.c:91-124 | after every register write no leg has both sides on and only one duty is nonzero; the call drives the limited voltage, or nothing at a sign change |
| HBridge.DriveAll | firmware/avr/CritterbotAVRMotor/avr_motor.c:91-124 | over any sequence of calls with any limits the bridge is where the sequence of limited voltages says |
| HBridge.DriveFollowsVoltage | firmware/avr/CritterbotAVRMotor/avr_motor.c:101-123 | in such a sequence a call that keeps the direction drives forward minus backward with twice its voltage, or 255 and -255 at 127 and -127, through the low side that belongs to it; one that reverses turns everything off |
| HBridge.MoreVoltageMoreDrive | firmware/avr/CritterbotAVRMotor/avr_motor.c:108-111 | so the drive is strictly increasing in the voltage |
| HBridge.ReversalPassesThroughOff | firmware/avr/CritterbotAVRMotor/avr_motor.c:101-106 | in such a sequence, between calls that drive in opposite directions one call leaves all outputs off |
| WheelControl.Controller.CurrentLimit | firmware/avr/CritterbotAVRMotor/avr_motor.c:126-194 | overcurrent correction, stall counter and voltage limit, and the weakened setpoint, as CurrentRuns adds up over runs |
| CurrentRuns.Hold | firmware/avr/CritterbotAVRMotor/avr_motor.c:126-194 | through any run of control turns with one setpoint, each acts on what the overcurrent so far has left of it, in its direction, through the PID or the hard limit, and the voltage limit is that of the run |
| CurrentRuns.Weakens | firmware/avr/CritterbotAVRMotor/avr_motor.c:138-146 | of magnitude m, n turns of overcurrent leave max(1, m - n) |
| CurrentRuns.ComesBack | firmware/avr/CritterbotAVRMotor/avr_motor.c:147-155 | n turns without bring n of it back, up to m |
| WheelControl.Controller.UpdateVoltageLimit | firmware/avr/CritterbotAVRMotor/avr_motor.c:158-190 | the limit falls one per six stalled ticks, recovers otherwise, and never exceeds what the bus allows |
| CurrentRuns.StallWeakens | firmware/avr/CritterbotAVRMotor/avr_motor.c:157-169 | stalled and drawing current, the voltage limit falls by one with every sixth turn, to no less than 1 |
| CurrentRuns.LimitRecovers | firmware/avr/CritterbotAVRMotor/avr_motor.c:170-173 | with next to no current it recovers by one a turn, up to what the bus allows |
| CurrentRuns.TurningRecovers | firmware/avr/CritterbotAVRMotor/avr_motor.c:159-173 | turning, it recovers once the wheel has turned for as long as it stood |
| CurrentRuns.BusLimit | firmware/avr/CritterbotAVRMotor/avr_motor.c:176-187 | what the bus allows: everything up to 12.0 V, less by three quarters of the excess, nothing above 18.5 V |
| WheelControl.Controller.SpeedLimit | firmware/avr/CritterbotAVRMotor/avr_motor.c:204-206 | a bound that keeps the sign and everything within it |
| WheelControl.Controller.SoftPidControl | firmware/avr/CritterbotAVRMotor/avr_motor.c:265-299 | the result, error and integral for every input, wrap-around at 16 bits included; the integral stays within 1000 and the result within 127 |
| PidRuns.TickAgrees | firmware/avr/CritterbotAVRMotor/avr_motor.c:279-299 | error and integral keep a relation in which a tick of up to 523 clicks overflows nowhere |
| PidRuns.IntendedIff | firmware/avr/CritterbotAVRMotor/avr_motor.c:265-299 | from power-up, over every run of at most c clicks a tick, the results are those of the controller on unbounded integers, if and only if c is at most 523 |
| PidRuns.TooFastDisagrees | firmware/avr/CritterbotAVRMotor/avr_motor.c:286-299 | a run of 524 clicks a tick that ends in full drive one way where the other was meant |
| PidRuns.Drive | firmware/avr/CritterbotAVRMotor/critterbot_motor.c:189-208 | the controller through any activity of ticks and SPI bytes issues the results of such a run, the intended ones up to 523 clicks |
| PidRuns.FollowsLaw | firmware/avr/CritterbotAVRMotor/avr_motor.c:265-299 | the intended controller's law in numbers: four clicks to a speed of at most 25, an integral that loses a 64th and gains the error within 1000, gains 8, 8 and 16, a 64th of the sum within 127 |
| PidRuns.FirstCommand | firmware/avr/CritterbotAVRMotor/avr_motor.c:265-299 | from rest it starts with twice the speed asked for |
| PidRuns.IntegralFades | firmware/avr/CritterbotAVRMotor/avr_motor.c:279-286 | at the speed asked for the integral fades by at least one a tick, to zero |
| WheelControl.Unattended | firmware/avr/CritterbotAVRMotor/critterbot_motor.c:189-208 | over any run in which no setpoint byte arrives, the command is zero from the 188th tick on, for good, and all outputs are off |
| WheelControl.Controller.Watchdog | firmware/avr/CritterbotAVRMotor/critterbot_motor.c:193-196 | a nonzero setpoint is used only within 61 ticks of the last setpoint byte |
| WheelControl.Controller.ControlTick | firmware/avr/CritterbotAVRMotor/critterbot_motor.c:189-208 | one control turn: watchdog, limits, PID or hard limit; in every turn the drive the bridge gets times the bus voltage is at most 15805, and zero above 18.5 V |
| WheelControl.Controller.SpiByte | firmware/avr/CritterbotAVRMotor/critterbot_motor.c:22-67 | each byte goes to the field of its slot and each reply slot holds its value |
| WheelControl.DriveCapped | firmware/avr/CritterbotAVRMotor/avr_motor.c:179-190 | drive times bus voltage is at most 15805, below 12.5 V at full scale, and zero above 18.5 V |
| WheelControl.CappedProduct | firmware/avr/CritterbotAVRMotor/avr_motor.c:179-190 | that bound is reached at 14.5 V |
| WheelControl.ReversesIff | firmware/avr/CritterbotAVRMotor/avr_motor.c:137-156 | for every nonzero setpoint, the correction reverses the command exactly when the setpoint has shrunk below what is left of it, and otherwise only weakens it |
| WheelControl.ZeroSetpointResidue | firmware/avr/CritterbotAVRMotor/avr_motor.c:147-156 | a zero setpoint still commands what is left of the correction |
| WheelControl.Drained | firmware/avr/CritterbotAVRMotor/avr_motor.c:147-156 | which is gone after as many ticks |
| WheelControl.EncoderDifference | firmware/avr/CritterbotAVRMotor/critterbot_motor.c:114-121 | the click difference is right across a wrap of the counter |
| MotorLink.SpeedIsNoHeader | firmware/arm/lib_motor.c:155-181 | no setpoint byte looks like a header |
| MotorLink.OnePacketAlignsIff | firmware/avr/CritterbotAVRMotor/critterbot_motor.c:22-67 | one packet brings any slave into step, unless it was in its last two states and the voltage byte reads as a header |
| MotorLink.StreamKeepsStep | firmware/avr/CritterbotAVRMotor/critterbot_motor.c:22-67 | a slave in step stays so over every sequence of packets; one out of step by three stays so exactly if every voltage reads as a header |
| MotorLink.ExchangePacket | firmware/arm/lib_motor.c:155-181 | in step, byte 1 is the setpoint and byte 2 the voltage, and reply slots 1 to 4 hold clicks, current, temperature and last output |
| MotorLink.ExchangeOutOfStep | firmware/avr/CritterbotAVRMotor/critterbot_motor.c:22-67 | out of step by three, the wheel is told to stop |
| SpiQueue.SpiDriver.SendPacket | firmware/arm/lib_spi.c:73-121 | the linked list stays acyclic and ends at head, the packet joins the end of the queue, and its words select the device, the last one releasing it |
| SpiQueue.TaggingKeepsData | firmware/arm/lib_spi.c:79-91 | those bits leave the data alone, and sending again changes nothing more |
| SpiQueue.TaggingSelects | firmware/arm/lib_spi.c:87-91 | every word sent contains all select bits, the last one bit 24, and no word any bit that is in none of these |
| SpiQueue.SpiDriver.Isr | firmware/arm/lib_spi.c:130-188 | a completion increments exactly the counter of the packet in flight and starts the next |
| SpiQueue.CompletionsFollowSends | firmware/arm/lib_spi.c:73-188 | over any interleaving packets complete in send order, each accepted send once |
| SpiQueue.Drive | firmware/arm/lib_spi.c:73-188 | the linked structure follows the queue through any interleaving, and every counter advances by its number of completions |
| SerialRing.Ring.Deposit | firmware/arm/armio.c:414-428 | an arriving byte joins the end of the unread bytes |
| SerialRing.Ring.GetChar | firmware/arm/armio.c:333-347 | takes the oldest unread byte, or reports that there is none |
| SerialRing.Ring.GetNumChars | firmware/arm/armio.c:349-366 | the exact count, plus one when the unread bytes go around the end |
| SerialRing.Ring.FindLineEnd | firmware/arm/armio.c:384-396 | the scan stops at the first carriage return, wherever an earlier scan stopped |
| SerialRing.Ring.ReadLineInto | firmware/arm/armio.c:368-412 | a buffered line that fits is delivered and taken with its end; of one that does not the start is lost |
| SerialRing.ReturnsLineIff | firmware/arm/armio.c:368-412 | a line is returned exactly when a carriage return follows at most max_size - 1 bytes; a longer one loses that many bytes, and without any nothing is taken |
| SerialRing.Interleave | firmware/arm/armio.c:333-412 | any interleaving of arrivals and both readers refines a byte queue, state and outputs |
| CommandStream.ParseChunks | firmware/arm/lib_mi.c:159-213 | reading what is there and the rest later is the same as reading everything at once |
| CommandStream.ParseFrames | firmware/arm/lib_mi.c:159-213 | any sequence of the host's frames is read back as modes, signed velocities, LED modes and colours, and the reader is between frames afterwards |
| CommandStream.FrameLayout | Critterdriver/Critterlib/src/seriallink/ActionWriter.cpp:19-58 | the frame byte by byte: header, modes and velocities, and in custom mode red, green and blue of every lamp |
| CommandStream.VelocitiesSurvive | Critterdriver/Critterlib/src/seriallink/ActionWriter.cpp:45-48 | velocities that fit a signed byte arrive unchanged |
| CommandStream.RingParseMeaning | firmware/arm/lib_mi.c:169-170 | what the robot reads, given its count: the reference result, or that and a packet completed by a byte that is not there |
| CommandStream.ReadsRightIff | firmware/arm/lib_mi.c:169-213 | it reads right if and only if it is not called with one byte of a packet missing and the others around the end of the ring |
| CommandStream.MisreadCosts | firmware/arm/lib_mi.c:189-209 | when it is, the velocities get through and the lighting mode, or the last blue, is lost |
| CommandStream.MisreadHappens | firmware/arm/lib_mi.c:169-170 | and there is such a call |
| CommandLink.ActionWriter.PrepareActionData | Critterdriver/Critterlib/src/seriallink/ActionWriter.cpp:43-58 | what will be sent next is the frame of the control drop |
| CommandLink.ActionWriter.WriteActionToSerialLink | Critterdriver/Critterlib/src/seriallink/ActionWriter.cpp:84-96 | what is sent is what was prepared |
| CommandLink.LastDropActs | firmware/arm/lib_mi.c:214-264 | of the host's actions that one call finds the last one is carried out, and no other: which drive command, switch or exit each mode means |
| CommandLink.LastDropLights | firmware/arm/lib_mi.c:265-287 | its lighting mode stays, and shows the lamp pattern that the host's enumeration names, its colours included as data alone |
| RobotDrive.Obey | firmware/arm/lib_mi.c:220-261 | an action reaches the drive as the commands it stands for |
| RobotDrive.LastDropDrives | firmware/arm/lib_mi.c:214-264 | the last action slews, moves or sets the voltage as the host's enumeration names it; an unknown mode below the special ones sets all wheels to zero, which lasts exactly if no ramp is pending or one at zero |
| CommandLink.DisabledStillActs | firmware/arm/lib_mi.c:214-264 | while commands are disabled nothing moves the robot, and exactly which commands still act |
| CommandLink.CommandReader.GetCommands | firmware/arm/lib_mi.c:159-288 | decodes everything buffered, acts on the last motor packet only, and never selects the custom lighting |
| CommandLink.CommandReader.Decode | firmware/arm/lib_mi.c:169-213 | the loop follows the reference, colours included, and its safety exit is never taken |
| CommandLink.Run | firmware/arm/lib_mi.c:159-213 | pieces of the stream arriving between calls are decoded as the reference for that run says |
| CommandLink.ReadsRightThroughIff | firmware/arm/lib_mi.c:159-213 | over any number of calls, the stream is read as if it came at once if and only if every call made in the condition above only guesses a last blue of 255 that then comes |
| CommandLink.CutsDoNotMatter | firmware/arm/lib_mi.c:159-213 | in particular if no call is made in that condition |
| CommandLink.ActionsArriveIff | Critterdriver/Critterlib/src/seriallink/ActionWriter.cpp:43-96 | any sequence of actions, cut in any way, is read back whole if and only if the cuts are of that kind |
| CommandLink.WholeFramesAreUndisturbed | firmware/arm/lib_mi.c:159-213 | cutting between frames always meets the condition |
| StatusFrames.FieldsOfPack | firmware/arm/lib_mi.c:88-91 | four two-bit fields share a byte and come apart again |
| StatusFrames.AccelDelivered | Critterdriver/Critterlib/src/seriallink/CritterSerialLink.cpp:112-119 | accelerations arrive as 12-bit signed values |
| StatusFrames.MagDelivered | Critterdriver/Critterlib/src/seriallink/CritterSerialLink.cpp:120-128 | magnetic fields arrive with 10 bits, the rotation as its 10 bits minus 512 |
| StatusFrames.DistanceDelivered | Critterdriver/Critterlib/src/seriallink/CritterSerialLink.cpp:129-143 | a distance v arrives as (v >> 2) or-ed with v & 3 |
| StatusFrames.DistanceExactIff | Critterdriver/Critterlib/src/seriallink/CritterSerialLink.cpp:129-143 | which is v exactly when v is below 4 |
| StatusFrames.LightDelivered | Critterdriver/Critterlib/src/seriallink/CritterSerialLink.cpp:144-150 | light arrives with 10 bits |
| StatusFrames.ThermalDelivered | Critterdriver/Critterlib/src/seriallink/CritterSerialLink.cpp:151-154 | temperatures arrive with 16 bits |
| StatusFrames.IrLightDelivered | Critterdriver/Critterlib/src/seriallink/CritterSerialLink.cpp:155-166 | infrared light arrives modulo 256 |
| StatusFrames.ErrorsDelivered | Critterdriver/Critterlib/src/seriallink/CritterSerialLink.cpp:167-172 | the low 24 error bits arrive, under the charge state |
| StatusFrames.PacketDelivers | Critterdriver/Critterlib/src/seriallink/CritterSerialLink.cpp:86-180 | every reading of a packet arrives, in as many of its bits as the packet carries; charging, driving and monitoring in bits 7, 6 and 0 of the last byte |
| StatusSender.Sender.PutWcrc | firmware/arm/lib_mi.c:48-52 | any byte steps the CRC register and goes to the transmit buffer |
| StatusSender.Sender.PutChar | firmware/arm/armio.c:313-331 | a byte joins the transmit buffer, or is dropped with an error when the buffer is full |
| StatusSender.Sender.SendStatus | firmware/arm/lib_mi.c:54-157 | what goes out is header, 77 payload bytes in their places, and their CRC, as far as the transmit buffer has room; the overflow is flagged exactly when it has not |
| StatusSender.PacketIsAccepted | firmware/arm/lib_mi.c:154-155 | the packet would pass the same check as a program image |
| StatusPort.Port.Offer | firmware/arm/lib_mi.c:54-157 | a frame joins what is still to go out, or the overflow is flagged, exactly if it finds no room |
| StatusPort.Port.Isr | firmware/arm/armio.c:414-428 | the interrupt empties the buffer exactly when all of it has gone out |
| StatusPort.Serve | firmware/arm/armio.c:313-428 | over any run of frames, shifted bytes and interrupts the overflow is flagged exactly if some frame finds no room, and otherwise the line gets all frames in order, but for what is still in the buffer |
| StatusLink.ParserSeesTheLine | Critterdriver/Critterlib/src/seriallink/CritterSerialLink.cpp:187-249 | the byte-wise parser undoes the terminal's marking of 0xFF and of parity errors, whatever comes in |
| StatusLink.HeaderAligns | Critterdriver/Critterlib/src/seriallink/CritterSerialLink.cpp:195-205 | a whole header leads into its packet however much of one was found before |
| StatusLink.FramesReceived | Critterdriver/Critterlib/src/seriallink/CritterSerialLink.cpp:187-249 | for any sequence of frames exactly their 79-byte packets are found |
| StatusLink.EntersIffScattered | Critterdriver/Critterlib/src/seriallink/CritterSerialLink.cpp:195-205 | between frames the parser is led astray exactly when the four header bytes occur in order, with gaps or without |
| StatusLink.OnePacketLostIff | Critterdriver/Critterlib/src/seriallink/CritterSerialLink.cpp:228-235 | a parity error in a packet costs that packet and no other, whatever follows, if and only if the header bytes do not lie scattered in what is left of it |
| StatusLink.HeaderErrorCostsIff | Critterdriver/Critterlib/src/seriallink/CritterSerialLink.cpp:195-205 | one in a header byte costs that packet and no other, whatever follows, if and only if the header does not lie scattered in the damaged frame; and nothing if the byte is right all the same |
| StatusHost.SerialLink.ParseByte | Critterdriver/Critterlib/src/seriallink/CritterSerialLink.cpp:187-249 | one call is one step of the parser on state, collected bytes and remaining input |
| StatusHost.SerialLink.ReadStateDrop | Critterdriver/Critterlib/src/seriallink/CritterSerialLink.cpp:251-258 | returns the next packet decoded, or nothing when the port fails first |
| StatusHost.ParseDataToDrop | Critterdriver/Critterlib/src/seriallink/CritterSerialLink.cpp:86-180 | the walk through the packet decodes every field from its place |
| StatusHost.StatusArrives | Critterdriver/Critterlib/src/seriallink/CritterSerialLink.cpp:187-249 | whatever the robot sends, the parser finds those packets and only those |
| StatusHost.ReceiveAll | Critterdriver/Critterlib/src/seriallink/CritterSerialLink.cpp:251-258 | end to end: each drop read delivers the readings it was sent for, in order |
| NumberText.ItoA | firmware/arm/armio.c:268-293 | the buffer holds the number's text in any base from 2 to 36, and nothing behind it has changed |
| NumberText.PutDigits | firmware/arm/armio.c:283-287 | the loop writes the digits, least significant first |
| NumberText.StrRev | firmware/arm/armio.c:295-306 | reverses a text in place and touches nothing behind it |
| NumberText.AtoI | firmware/arm/armio.c:87-123 | the value read, wrapped to a word, and the count returned |
| NumberText.ReadDigits | firmware/arm/armio.c:116-120 | wrapping at every digit equals wrapping the whole number once |
| NumberText.NumberOfDigits | firmware/arm/armio.c:125-132 | digits and digit values are inverse in bases up to 16 |
| NumberText.AsciiDigits | firmware/arm/armio.c:125-293 | the digits are 0-9 and capital letters, printed up to Z and read up to F |
| NumberText.RoundTrip | firmware/arm/armio.c:87-293 | every word printed in base 10, or in base 2, 8 or 16 and tagged, reads back, all characters consumed |
| NumberText.PrintAndRead | firmware/arm/armio.c:87-293 | printing and reading the same buffer gives the word and the length |
| NumberText.PlusIsNotCounted | firmware/arm/armio.c:92-95 | after a plus sign the value is right and the count one short |
| NumberText.AtMost33CellsIff | firmware/arm/armio.c:268-293 | text and terminator take at most 33 characters, but for the smallest word, signed, in base 2 |
| NumberText.FitsPrintBufferIff | firmware/arm/armio.c:134-180 | which forms fit the 32 characters of the printing routines: all but base 2 with the top bit set |

## Left out

- Slew.MotorDriver.SetSpeedSlew: demands that a new target differs from the current speeds, as the code divides by the distance between them; SlewRuns.TimeoutCanDivideByZero shows a run that breaks this.
- Slew.MotorDriver.SetSpeedXyTheta: the same demand, on the scaled speeds.
- Slew.MotorDriver.MotorEvent: the same demand, on the stop that the timeout commands; SlewRuns.IdleDefinedIff says exactly when it is met.
- SlewRuns.SafeStopIff: the run that led to the state it speaks of is one in which no division by zero has occurred.
- Boot.Bootloader.BeginReceive: demands that image and CRC fit the receive buffer; the length test at `firmware/arm/lib_ui.c:538` lets one byte more through.
- Flash.FlashDevice.EraseWritePage: takes the page buffer to read as erased after programming, and a page that reports an error to be unchanged.
- ChargerRuns.ChargerExclusion: starts after `charger_init`, which turns three floating pins off one by one.
- CurrentRuns.Hold: speaks of the turns before the watchdog takes the setpoint away, and not of the setpoint -128, whose magnitude is no signed byte.
- SpiQueue.SpiDriver.SendPacket: demands that the packet is not already queued, which the driver relies on.
- SpiQueue.SpiDriver.SendPacket: takes a packet to have a fixed, nonzero number of words; one that changes keeps the last-word bit where it was.
- SerialRing.Ring.Deposit: demands room for the byte, as the hardware has no means to refuse it.
- Interrupts inside a step: bytes that arrive, packets that complete or encoder clicks that come in while a modelled call is under way take effect between calls.
- Register addresses, peripheral set-up, delays, clocks and the averaging of converter readings: the sampled values are inputs.
- Fans, the charge display and all LED animation: output only, easy members.
- The power controller's SPI interrupt: same shape as the wheel controller's, with read-only slots.
- The SSC driver: a near copy of the SPI queue; the older motor and power firmware, the pseudo-random generator and the Python struct codec likewise.
- The charger-finding automaton in `firmware/arm/lib_recharger.c`: its natural claim, that it ends, does not hold, as ALIGN can return to itself.
- The accelerometer driver, the sensors' converters and the user interface's commands.
- Sockets, threads and the writer's wait-and-signal handshake on the host, whose wait has no predicate.
- The Java simulator and its displays: floating-point data holders.
