/**
  The wheel controller's H-bridge output.  Driving a leg high while its low side is on
  would short the supply; there is no hardware protection.
*/
module HBridge {
  import opened Words

  /* The PWM duties of the two high sides and the two low-side pins. */
  datatype Bridge = Bridge(ocr0a: uint8, ocr0b: uint8, lowA: bool, lowB: bool) {
    predicate Shorted() {
      (ocr0a > 0 && lowA) || (ocr0b > 0 && lowB)
    }

    predicate Safe() {
      !Shorted() && !(ocr0a > 0 && ocr0b > 0)
    }

    // The duty that drives forward, less the one that drives backward.
    function Drive(): int {
      ocr0b - ocr0a
    }

    predicate DrivesForward() {
      ocr0b > 0
    }

    predicate DrivesBackward() {
      ocr0a > 0
    }
  }

  const ALL_OFF := Bridge(0, 0, false, false)

  function Limited(voltage: int8, limit: int8): int8
    requires limit >= 0
  {
    if voltage > limit then limit else if voltage < -limit then -limit else voltage
  }

  // The voltage asked for as far as the limit allows, in its direction.
  lemma LimitBounds(voltage: int8, limit: int8)
    requires limit >= 0
    ensures Bounded(Limited(voltage, limit), voltage, limit)
  {
  }

  predicate Bounded(v: int, voltage: int, limit: int) {
    && (-limit <= voltage <= limit ==> v == voltage)
    && (voltage > limit ==> v == limit) && (voltage < -limit ==> v == -limit)
  }

  function Duty(magnitude: nat): uint8
    requires magnitude <= 127
  {
    if magnitude == 127 then 255 else 2 * magnitude
  }

  predicate SameSign(v: int8, w: int8) {
    v >= 0 <==> w >= 0
  }

  // The bridge after a call that drives v, having driven last before.
  function Driven(v: int8, last: int8): Bridge
    requires -127 <= v
  {
    if !SameSign(v, last) then ALL_OFF
    else if v > 0 then Bridge(0, Duty(v), true, false)
    else if v < 0 then Bridge(Duty(-v), 0, false, true)
    else ALL_OFF
  }

  class BridgeDriver {
    var ocr0a: uint8
    var ocr0b: uint8
    var lowA: bool
    var lowB: bool
    var lastVoltage: int8
    // The registers after every single write.
    ghost var writes: seq<Bridge>

    ghost function Regs(): Bridge
      reads this
    {
      Bridge(ocr0a, ocr0b, lowA, lowB)
    }

    ghost predicate WritesSafe()
      reads this
    {
      forall w | w in writes :: w.Safe()
    }

    // Which side may be on is decided by the last voltage's sign.
    ghost predicate Valid()
      reads this
    {
      && Regs().Safe() && WritesSafe()
      && (if lastVoltage >= 0 then ocr0a == 0 && !lowB else ocr0b == 0 && !lowA)
    }

    constructor ()
      ensures Valid() && Regs() == ALL_OFF && lastVoltage == 0 && writes == []
    {
      ocr0a, ocr0b, lowA, lowB, lastVoltage, writes := 0, 0, false, false, 0, [];
    }

    // Every write to a register is followed by this.
    ghost method Record()
      requires Regs().Safe() && WritesSafe()
      modifies this`writes
      ensures WritesSafe() && writes == old(writes) + [Regs()]
    {
      writes := writes + [Regs()];
    }

    // After every single register write the bridge is safe, and the call ends in the state
    // for the limited voltage.
    method SetVoltage(voltage: int8, limit: int8)
      requires Valid() && limit >= 0
      modifies this
      ensures Valid()
      ensures Regs() == Driven(Limited(voltage, limit), old(lastVoltage))
      ensures lastVoltage == Limited(voltage, limit)
    {
      var v := voltage;
      if v > limit {
        v := limit;
      }
      if v < -limit {
        v := -limit;
      }
      if (if v >= 0 then 1 else -1) != (if lastVoltage >= 0 then 1 else -1) {
        ocr0a := 0;
        Record();
        ocr0b := 0;
        Record();
        lowA, lowB := false, false;
        Record();
      } else {
        SetDuties(v);
        SetLowSides(v);
      }
      lastVoltage := v;
    }

    method SetDuties(v: int8)
      requires Valid() && SameSign(v, lastVoltage) && -127 <= v
      modifies this`ocr0a, this`ocr0b, this`writes
      ensures Valid()
      ensures ocr0b == (if v > 0 then Duty(v) else 0) && ocr0a == (if v < 0 then Duty(-v) else 0)
    {
      ocr0b := if v > 0 then (if v == 127 then 255 else 2 * v) else 0;
      Record();
      ocr0a := if v < 0 then (if v <= -127 then 255 else 2 * (256 - (v + 256))) else 0;
      Record();
    }

    method SetLowSides(v: int8)
      requires Valid() && SameSign(v, lastVoltage)
      requires (v <= 0 ==> ocr0b == 0) && (v >= 0 ==> ocr0a == 0)
      modifies this`lowA, this`lowB, this`writes
      ensures Valid()
      ensures lowA == (v > 0) && lowB == (v < 0)
    {
      if v < 0 {
        lowA := false;
        Record();
        lowB := true;
        Record();
      } else if v > 0 {
        lowB := false;
        Record();
        lowA := true;
        Record();
      } else {
        lowA, lowB := false, false;
        Record();
      }
    }
  }

  /* Call sequences: the voltages driven, starting from a bridge that is off. */

  function LastOf(calls: seq<int8>): int8 {
    if calls == [] then 0 else calls[|calls| - 1]
  }

  // The bridge after the first k calls.
  function BridgeAfter(calls: seq<int8>, k: nat): Bridge
    requires k <= |calls| && forall i | 0 <= i < |calls| :: -127 <= calls[i]
  {
    if k == 0 then ALL_OFF else Driven(calls[k - 1], LastOf(calls[..k - 1]))
  }

  predicate Follows(b: Bridge, v: int, last: int) {
    if (v >= 0) == (last >= 0) then
      && b.Drive() == (if v == 127 then 255 else if v == -127 then -255 else 2 * v)
      && (b.ocr0a == 0 || b.ocr0b == 0) && b.lowA == (v > 0) && b.lowB == (v < 0)
    else b == Bridge(0, 0, false, false)
  }

  lemma DrivenFollows(v: int8, last: int8)
    requires -127 <= v
    ensures Follows(Driven(v, last), v, last)
  {
  }

  // A call that keeps the direction drives twice the voltage, or fully at 127; one that
  // reverses it turns everything off.
  lemma DriveFollowsVoltage(calls: seq<int8>, k: nat)
    requires 1 <= k <= |calls| && forall i | 0 <= i < |calls| :: -127 <= calls[i]
    ensures Follows(BridgeAfter(calls, k), calls[k - 1], if k == 1 then 0 else calls[k - 2])
  {
    hide Driven, Follows;
    DrivenFollows(calls[k - 1], if k == 1 then 0 else calls[k - 2]);
  }

  // So the drive grows with the voltage.
  lemma MoreVoltageMoreDrive(calls: seq<int8>, k: nat, others: seq<int8>, n: nat)
    requires 1 <= k <= |calls| && forall i | 0 <= i < |calls| :: -127 <= calls[i]
    requires 1 <= n <= |others| && forall i | 0 <= i < |others| :: -127 <= others[i]
    requires k == 1 || (calls[k - 2] >= 0) == (calls[k - 1] >= 0)
    requires n == 1 || (others[n - 2] >= 0) == (others[n - 1] >= 0)
    requires k > 1 || calls[0] >= 0
    requires n > 1 || others[0] >= 0
    ensures BridgeAfter(calls, k).Drive() < BridgeAfter(others, n).Drive() <==> calls[k - 1] < others[n - 1]
  {
    hide BridgeAfter;
    DriveFollowsVoltage(calls, k);
    DriveFollowsVoltage(others, n);
  }

  // Between any two calls that drive in opposite directions, one call leaves all outputs off.
  lemma ReversalPassesThroughOff(calls: seq<int8>, i: nat, j: nat) returns (k: nat)
    requires forall i | 0 <= i < |calls| :: -127 <= calls[i]
    requires 1 <= i < j <= |calls|
    requires (BridgeAfter(calls, i).DrivesBackward() && BridgeAfter(calls, j).DrivesForward())
          || (BridgeAfter(calls, i).DrivesForward() && BridgeAfter(calls, j).DrivesBackward())
    ensures i < k < j && BridgeAfter(calls, k) == ALL_OFF
    decreases j - i
  {
    k := SignChange(calls, i, j);
    assert LastOf(calls[..k - 1]) == calls[k - 2];
    assert BridgeAfter(calls, k) == ALL_OFF;
  }

  lemma {:induction false} SignChange(calls: seq<int8>, i: nat, j: nat) returns (k: nat)
    requires 1 <= i < j <= |calls| && !SameSign(calls[i - 1], calls[j - 1])
    ensures i < k <= j && !SameSign(calls[k - 1], calls[k - 2])
    decreases j - i
  {
    if SameSign(calls[i - 1], calls[i]) {
      k := SignChange(calls, i + 1, j);
    } else {
      k := i + 1;
    }
  }

  datatype Request = Request(voltage: int8, limit: int8)

  // The driver through any sequence of requests: what it drives are the limited voltages,
  // and after each call the bridge is as the sequence says, so that the reversal rule holds.
  method DriveAll(d: BridgeDriver, requests: seq<Request>) returns (ghost calls: seq<int8>)
    requires d.Valid() && d.Regs() == ALL_OFF && d.lastVoltage == 0
    requires forall r | r in requests :: r.limit >= 0
    modifies d
    ensures d.Valid() && |calls| == |requests|
    ensures forall k | 0 <= k < |calls| ::
              -127 <= calls[k] && Bounded(calls[k], requests[k].voltage, requests[k].limit)
    ensures d.Regs() == BridgeAfter(calls, |calls|) && d.lastVoltage == LastOf(calls)
  {
    hide Driven, BridgeDriver.Valid;
    calls := [];
    var i := 0;
    while i < |requests|
      invariant 0 <= i <= |requests| && d.Valid() && |calls| == i
      invariant forall k | 0 <= k < i ::
                  -127 <= calls[k] && Bounded(calls[k], requests[k].voltage, requests[k].limit)
      invariant d.Regs() == BridgeAfter(calls, i) && d.lastVoltage == LastOf(calls)
    {
      var r := requests[i];
      ghost var before := calls;
      d.SetVoltage(r.voltage, r.limit);
      LimitBounds(r.voltage, r.limit);
      calls := calls + [Limited(r.voltage, r.limit)];
      assert calls[..i] == before;
      i := i + 1;
    }
  }
}
