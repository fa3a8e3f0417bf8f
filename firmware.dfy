/**
 * The firmware's `setup()` and `loop()` as the imperative code they are:
 * an object holding the globals `scale_factor` and `unit`, and a bus object
 * standing for the Wire library, whose outcomes are injected. Each method is
 * proved to leave the state that the matching function of module Sequencer
 * computes from the state it started in.
 */
module Firmware {
  import opened Bits
  import opened Wrappers
  import opened Protocol
  import opened Sequencer

  /** The two-wire bus as the firmware sees it, answering from injected outcomes. */
  class Wire {
    /** `endTransmission` results still to come */
    var codes: seq<byte>
    /** the bytes the sensor will deliver to each coming `requestFrom` */
    var replies: seq<seq<byte>>
    /** the receive buffer that `available()` and `read()` work on */
    var rx: seq<byte>

    constructor (codes: seq<byte>, replies: seq<seq<byte>>)
      ensures this.codes == codes && this.replies == replies && rx == []
    {
      this.codes := codes;
      this.replies := replies;
      rx := [];
    }

    /** `endTransmission()`: `None` when no outcome is left. */
    method EndTransmission() returns (ret: Option<byte>)
      modifies this
      ensures old(codes) == [] ==> ret == None && codes == []
      ensures old(codes) != [] ==> ret == Some(old(codes)[0]) && codes == old(codes)[1..]
      ensures replies == old(replies) && rx == old(rx)
    {
      if codes == [] {
        ret := None;
      } else {
        ret := Some(codes[0]);
        codes := codes[1..];
      }
    }

    /** `requestFrom(quantity)`: false when no reply is left. */
    method RequestFrom(quantity: nat) returns (answered: bool)
      modifies this
      ensures answered == (old(replies) != [])
      ensures answered ==>
        (replies == old(replies)[1..]
         && rx == (if |old(replies)[0]| <= quantity then old(replies)[0] else old(replies)[0][..quantity]))
      ensures answered ==> |rx| <= quantity && rx <= old(replies)[0]
      ensures !answered ==> replies == old(replies) && rx == old(rx)
      ensures codes == old(codes)
    {
      answered := replies != [];
      if answered {
        rx := if |replies[0]| <= quantity then replies[0] else replies[0][..quantity];
        replies := replies[1..];
      }
    }

    /** `available()`: the bytes still in the receive buffer. */
    function Available(): nat
      reads this
    {
      |rx|
    }

    /** `read()`; every read of the firmware follows a check of `available()`. */
    method Read() returns (b: byte)
      requires rx != []
      modifies this
      ensures b == old(rx)[0] && rx == old(rx)[1..]
      ensures codes == old(codes) && replies == old(replies)
    {
      b := rx[0];
      rx := rx[1..];
    }
  }

  class FlowMeter {
    const wire: Wire
    /** the globals `scale_factor` and `unit` */
    var scaleFactor: u16
    var unit: Option<string>
    /** delays, transactions and console errors so far */
    var trace: seq<Event>

    function State(): Machine
      reads this, wire
    {
      Machine(scaleFactor, unit, wire.codes, wire.replies, wire.rx, trace)
    }

    /** Power-on: the globals are zero-initialised, so `unit` is the null pointer. */
    constructor (wire: Wire)
      ensures this.wire == wire
      ensures State() == Machine(0, None, wire.codes, wire.replies, wire.rx, [])
    {
      this.wire := wire;
      scaleFactor := 0;
      unit := None;
      trace := [];
    }

    method Delay(ms: nat)
      modifies this
      ensures State() == Delayed(old(State()), ms)
    {
      trace := trace + [Event.Delay(ms)];
    }

    method Log(e: Error)
      modifies this
      ensures State() == Logged(old(State()), e)
    {
      trace := trace + [ErrorLogged(e)];
    }

    /** beginTransmission, write each byte of the payload, endTransmission. */
    method Send(payload: seq<byte>) returns (ret: Option<byte>)
      modifies this, wire
      ensures (State(), ret) == Sent(old(State()), payload)
    {
      ret := wire.EndTransmission();
      if ret.Some? {
        trace := trace + [Transmit(payload, ret.value)];
      }
    }

    method Request(quantity: nat) returns (answered: bool)
      modifies this, wire
      ensures answered == Requested(old(State()), quantity).Some?
      ensures State() == if answered then Requested(old(State()), quantity).value else old(State())
    {
      answered := wire.RequestFrom(quantity);
      if answered {
        trace := trace + [Event.Request(quantity, wire.Available())];
      }
    }

    /**
     * The six bytes that follow the EEPROM address: scale factor, CRC, unit
     * code, CRC, then the switch on the unit code.
     */
    method ReadCalibration()
      requires wire.Available() >= CalibrationLength
      modifies this, wire
      ensures State() == Calibrated(old(State()))
    {
      ghost var m := State();
      var hi := wire.Read();
      var lo := wire.Read();
      scaleFactor := BigEndian(hi, lo);
      var crc1 := wire.Read();
      hi := wire.Read();
      lo := wire.Read();
      var unitCode := BigEndian(hi, lo);
      var crc2 := wire.Read();
      assert wire.rx == m.rx[6..];
      var name := UnitForCode(unitCode);
      if name.Some? {
        unit := name;
      } else {
        Log(UnmappedUnit(unitCode));
      }
    }

    /**
     * The start-up loop of setup(). C runs the body of its do-while once
     * before testing `ret`; starting with a non-zero `ret` does the same.
     */
    method Setup() returns (verdict: Verdict)
      modifies this, wire
      ensures Pass(State(), verdict) == Startup(old(State()))
    {
      var ret: byte := 1;
      while ret != 0
        invariant Startup(old(State())) == if ret != 0 then Startup(State()) else Pass(State(), Ret(0))
        decreases |State().codes|
      {
        var outcome := RunPass();
        if !outcome.Ret? {
          return outcome;
        }
        ret := outcome.code;
      }
      verdict := Ret(0);
    }

    /**
     * One execution of the body of the do-while in setup(). Each `continue`
     * of the C code, which jumps to the `while (ret != 0)` test, is a return
     * of the current `ret`.
     */
    method RunPass() returns (verdict: Verdict)
      modifies this, wire
      ensures Pass(State(), verdict) == Attempt(old(State()))
    {
      Delay(RetryDelayMs);

      // 0xFE, then the settle delay
      var r := Send([SoftReset]);
      if r.None? {
        return Starved;
      }
      var ret := r.value;
      if ret != 0 {
        Log(ResetFailed);
        return Ret(ret);
      }
      Delay(ResetSettleMs);
      assert Attempt(old(State())) == ConfigStage(State());

      // 0xE3, then the two register bytes; bits 6..4 pick the table entry
      r := Send([ReadUserRegister]);
      if r.None? {
        return Starved;
      }
      ret := r.value;
      if ret != 0 {
        Log(RegisterModeFailed);
        return Ret(ret);
      }
      var answered := Request(UserRegisterLength);
      if !answered {
        return Starved;
      }
      if wire.Available() < UserRegisterLength {
        Log(RegisterReadShort);
        return Ret(ret);
      }
      var hi := wire.Read();
      var lo := wire.Read();
      var userReg := BigEndian(hi, lo);
      var index := ConfigIndex(userReg);
      var field := FieldAddress(index);
      if field.None? {
        return IndexOutOfRange(index);
      }
      var address := field.value;
      assert Attempt(old(State())) == CalibrationStage(State(), address);

      // 0xFA with the address bytes, then the six calibration bytes
      r := Send([ReadEeprom, AddressHigh(address), AddressLow(address)]);
      if r.None? {
        return Starved;
      }
      ret := r.value;
      if ret != 0 {
        Log(EepromAddressFailed);
        return Ret(ret);
      }
      answered := Request(CalibrationLength);
      if !answered {
        return Starved;
      }
      if wire.Available() < CalibrationLength {
        Log(EepromReadShort);
        return Ret(ret);
      }
      assert Attempt(old(State())) == MeasureModeStage(Calibrated(State()));
      ReadCalibration();

      // 0xF1
      r := Send([StartMeasurement]);
      if r.None? {
        return Starved;
      }
      ret := r.value;
      if ret != 0 {
        Log(MeasureModeFailed);
      }
      verdict := Ret(ret);
    }

    /** One call of loop(), up to the conversion. */
    method Loop() returns (sample: Sample)
      modifies this, wire
      ensures Measured(State(), sample) == MeasureStep(old(State()))
    {
      var answered := Request(MeasurementLength);
      if !answered {
        return NoReply;
      }
      if wire.Available() < MeasurementLength {
        Log(FlowReadShort);
        return ReadError;
      }
      var hi := wire.Read();
      var lo := wire.Read();
      var raw := BigEndian(hi, lo);
      sample := Flow(Int16(raw), scaleFactor);
    }
  }
}
