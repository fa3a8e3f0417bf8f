/**
 * The start-up sequence and the measurement step as functions of an
 * explicit machine state: the firmware's session variables, the bus
 * outcomes still to come, the bus receive buffer and the trace of
 * observable events so far. The imperative firmware in module Firmware is
 * proved to follow these functions step for step.
 *
 * The bus is injected: every write transaction takes its `endTransmission`
 * result from `codes`, every `requestFrom` takes the bytes the sensor
 * delivers from `replies`. When the stream a step needs is used up the
 * model stops (verdict `Starved`); the firmware itself would go on.
 */
module Sequencer {
  import opened Bits
  import opened Wrappers
  import opened Protocol

  /** Errors the firmware reports on its console. */
  datatype Error =
    | ResetFailed
    | RegisterModeFailed
    | RegisterReadShort
    | EepromAddressFailed
    | EepromReadShort
    | UnmappedUnit(code: u16)
    | MeasureModeFailed
    | FlowReadShort

  /** What can be observed of a run. */
  datatype Event =
    | Delay(ms: nat)
      /** beginTransmission, one write per payload byte, endTransmission and its result */
    | Transmit(payload: seq<byte>, ret: byte)
      /** requestFrom(quantity) and what available() then reports */
    | Request(quantity: nat, available: nat)
    | ErrorLogged(error: Error)

  /**
   * The firmware's globals `scale_factor` and `unit` (`None` is the null
   * pointer `unit` holds until a code is mapped), the injected bus outcomes,
   * the bus receive buffer and the trace.
   */
  datatype Machine = Machine(
    scaleFactor: u16,
    unit: Option<string>,
    codes: seq<byte>,
    replies: seq<seq<byte>>,
    rx: seq<byte>,
    trace: seq<Event>)

  /**
   * How a pass of the start-up loop ends: with the value `ret` holds at the
   * `while (ret != 0)` test, or with the model stopping because the injected
   * outcomes ran out or because the configuration index lies past the end
   * of the address table (an out-of-bounds read in the C code).
   */
  datatype Verdict = Ret(code: byte) | Starved | IndexOutOfRange(index: nat)

  datatype Pass = Pass(after: Machine, verdict: Verdict)

  /** The result of one measurement step. */
  datatype Sample =
      /** the signed raw reading and the scale factor it is to be divided by */
    | Flow(signed: int, scaleFactor: u16)
    | ReadError
    | NoReply

  datatype Measured = Measured(after: Machine, sample: Sample)

  /**
   * The last event of a pass that leaves `ret == 0`: the acknowledged
   * measurement command, or a short read logged after a successful write.
   */
  predicate ExitEvent(e: Event)
  {
    e == Transmit([StartMeasurement], 0)
    || e == ErrorLogged(RegisterReadShort)
    || e == ErrorLogged(EepromReadShort)
  }

  /** `m'` is `m` with more events appended to the trace and possibly fewer bus outcomes. */
  ghost predicate Extends(m: Machine, m': Machine)
  {
    m.trace <= m'.trace
    && |m'.codes| <= |m.codes|
  }

  // ---------------------------------------------------------------------
  // The bus transaction helpers and the two side effects, one step each.

  function Delayed(m: Machine, ms: nat): Machine
  {
    m.(trace := m.trace + [Delay(ms)])
  }

  function Logged(m: Machine, e: Error): Machine
  {
    m.(trace := m.trace + [ErrorLogged(e)])
  }

  /** A write transaction: its result is the next injected code. */
  function Sent(m: Machine, payload: seq<byte>): (p: (Machine, Option<byte>))
    ensures p.1.Some? <==> m.codes != []
    ensures p.1.Some? ==>
      m.codes == [p.1.value] + p.0.codes && p.0.trace == m.trace + [Transmit(payload, p.1.value)]
    ensures p.1.None? ==> p.0 == m
    ensures p.0.scaleFactor == m.scaleFactor && p.0.unit == m.unit && p.0.replies == m.replies && p.0.rx == m.rx
  {
    if m.codes == [] then (m, None)
    else
      (m.(codes := m.codes[1..], trace := m.trace + [Transmit(payload, m.codes[0])]),
       Some(m.codes[0]))
  }

  /**
   * `requestFrom(quantity)`: the receive buffer is replaced by the next
   * reply, of which at most `quantity` bytes are taken.
   */
  function Requested(m: Machine, quantity: nat): (q: Option<Machine>)
    ensures q.Some? <==> m.replies != []
    ensures q.Some? ==>
      var got := q.value.rx;
      m.replies == [m.replies[0]] + q.value.replies
      && got <= m.replies[0] && |got| <= quantity && (|got| == quantity || got == m.replies[0])
      && q.value.trace == m.trace + [Request(quantity, |got|)]
      && q.value.scaleFactor == m.scaleFactor && q.value.unit == m.unit && q.value.codes == m.codes
  {
    if m.replies == [] then None
    else
      var got := if |m.replies[0]| <= quantity then m.replies[0] else m.replies[0][..quantity];
      Some(m.(replies := m.replies[1..], rx := got, trace := m.trace + [Request(quantity, |got|)]))
  }

  // ---------------------------------------------------------------------
  // One pass of the `do { ... } while (ret != 0)` loop in setup(), stage by
  // stage; each `continue` of the C code ends the pass with the current ret.

  function Attempt(m: Machine): (p: Pass)
    ensures Extends(m, p.after)
    ensures |p.after.trace| > |m.trace| && p.after.trace[|m.trace|] == Delay(RetryDelayMs)
    ensures m.codes != [] ==>
      |p.after.trace| > |m.trace| + 1 && p.after.trace[|m.trace| + 1] == Transmit([SoftReset], m.codes[0])
    ensures p.verdict.Ret? && p.verdict.code != 0 ==> |p.after.codes| < |m.codes|
  {
    var m1 := Delayed(m, RetryDelayMs);
    var p := ResetStage(m1);
    assert p.after.trace[|m.trace|] == p.after.trace[..|m1.trace|][|m.trace|] == m1.trace[|m.trace|];
    p
  }

  function ResetStage(m: Machine): (p: Pass)
    ensures Extends(m, p.after)
    ensures m.codes != [] ==>
      |p.after.trace| > |m.trace| && p.after.trace[|m.trace|] == Transmit([SoftReset], m.codes[0])
    ensures p.verdict.Ret? && p.verdict.code != 0 ==> |p.after.codes| < |m.codes|
  {
    var (m1, r) := Sent(m, [SoftReset]);
    if r.None? then Pass(m1, Starved)
    else if r.value != 0 then Pass(Logged(m1, ResetFailed), Ret(r.value))
    else
      var p := ConfigStage(Delayed(m1, ResetSettleMs));
      assert p.after.trace[|m.trace|] == p.after.trace[..|m1.trace|][|m.trace|] == m1.trace[|m.trace|];
      p
  }

  function ConfigStage(m: Machine): (p: Pass)
    ensures Extends(m, p.after)
    ensures p.verdict.Ret? && p.verdict.code != 0 ==> |p.after.codes| < |m.codes|
  {
    var (m1, r) := Sent(m, [ReadUserRegister]);
    if r.None? then Pass(m1, Starved)
    else if r.value != 0 then Pass(Logged(m1, RegisterModeFailed), Ret(r.value))
    else
      var ret := r.value;
      var q := Requested(m1, UserRegisterLength);
      if q.None? then Pass(m1, Starved)
      else
        var m2 := q.value;
        if |m2.rx| < UserRegisterLength then Pass(Logged(m2, RegisterReadShort), Ret(ret))
        else
          var userReg := BigEndian(m2.rx[0], m2.rx[1]);
          var m3 := m2.(rx := m2.rx[2..]);
          var index := ConfigIndex(userReg);
          match FieldAddress(index)
          case None => Pass(m3, IndexOutOfRange(index))
          case Some(address) => CalibrationStage(m3, address)
  }

  function CalibrationStage(m: Machine, address: u16): (p: Pass)
    ensures Extends(m, p.after)
    ensures p.verdict.Ret? && p.verdict.code != 0 ==> |p.after.codes| < |m.codes|
  {
    var (m1, r) := Sent(m, [ReadEeprom, AddressHigh(address), AddressLow(address)]);
    if r.None? then Pass(m1, Starved)
    else if r.value != 0 then Pass(Logged(m1, EepromAddressFailed), Ret(r.value))
    else
      var ret := r.value;
      var q := Requested(m1, CalibrationLength);
      if q.None? then Pass(m1, Starved)
      else
        var m2 := q.value;
        if |m2.rx| < CalibrationLength then Pass(Logged(m2, EepromReadShort), Ret(ret))
        else
          MeasureModeStage(Calibrated(m2))
  }

  /**
   * Reading the six calibration bytes: scale factor (two bytes), CRC, unit
   * code (two bytes), CRC. The CRC bytes are consumed and not checked. A
   * mapped unit code sets `unit`; an unmapped one is logged and leaves it.
   */
  function Calibrated(m: Machine): (r: Machine)
    requires |m.rx| >= CalibrationLength
    ensures r.scaleFactor == BigEndian(m.rx[0], m.rx[1])
    ensures r.rx == m.rx[CalibrationLength..] && r.codes == m.codes && r.replies == m.replies
    ensures var code := BigEndian(m.rx[3], m.rx[4]);
      if code in FlowUnitCodes then r.unit.Some? && r.unit.value in FlowUnits && r.trace == m.trace
      else r.unit == m.unit && r.trace == m.trace + [ErrorLogged(UnmappedUnit(code))]
  {
    var scale := BigEndian(m.rx[0], m.rx[1]);
    var unitCode := BigEndian(m.rx[3], m.rx[4]);
    var m1 := m.(rx := m.rx[6..], scaleFactor := scale);
    var name := UnitForCode(unitCode);
    if name.Some? then m1.(unit := name) else Logged(m1, UnmappedUnit(unitCode))
  }

  function MeasureModeStage(m: Machine): (p: Pass)
    ensures Extends(m, p.after)
    ensures p.verdict.Ret? && p.verdict.code != 0 ==> |p.after.codes| < |m.codes|
  {
    var (m1, r) := Sent(m, [StartMeasurement]);
    if r.None? then Pass(m1, Starved)
    else if r.value != 0 then Pass(Logged(m1, MeasureModeFailed), Ret(r.value))
    else Pass(m1, Ret(r.value))
  }

  /**
   * The whole start-up loop: passes repeat while a pass ends with a
   * non-zero `ret`. Whatever ends the loop, `ret` is then 0, and every pass
   * has begun with the retry delay.
   */
  function Startup(m: Machine): (p: Pass)
    ensures Extends(m, p.after)
    ensures |p.after.trace| > |m.trace| && p.after.trace[|m.trace|] == Delay(RetryDelayMs)
    ensures p.verdict.Ret? ==> p.verdict.code == 0
    decreases |m.codes|
  {
    var p := Attempt(m);
    if p.verdict.Ret? && p.verdict.code != 0 then Startup(p.after) else p
  }

  /**
   * One call of loop(): request two bytes (the sensor's third, CRC byte is
   * never requested) and, when both arrived, read them most significant
   * first and reinterpret them as a signed 16-bit value.
   */
  function MeasureStep(m: Machine): (r: Measured)
    ensures r.sample.NoReply? <==> m.replies == []
    ensures r.sample.ReadError? <==> m.replies != [] && |m.replies[0]| < MeasurementLength
    ensures r.sample.Flow? ==>
      |m.replies| > 0 && |m.replies[0]| >= MeasurementLength
      && r.sample == Flow(Int16(BigEndian(m.replies[0][0], m.replies[0][1])), m.scaleFactor)
    ensures r.after.scaleFactor == m.scaleFactor && r.after.unit == m.unit && r.after.codes == m.codes
  {
    var q := Requested(m, MeasurementLength);
    if q.None? then Measured(m, NoReply)
    else
      var m1 := q.value;
      if |m1.rx| < MeasurementLength then Measured(Logged(m1, FlowReadShort), ReadError)
      else
        var raw := BigEndian(m1.rx[0], m1.rx[1]);
        Measured(m1.(rx := m1.rx[2..]), Flow(Int16(raw), m1.scaleFactor))
  }
}
