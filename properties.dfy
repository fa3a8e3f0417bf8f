/**
 * What the start-up loop and the measurement step guarantee, stated over
 * the functions of module Sequencer (and so, through the ensures clauses of
 * Firmware.FlowMeter.Setup and Loop, over the firmware itself).
 */
module StartupProperties {
  import opened Bits
  import opened Wrappers
  import opened Protocol
  import opened Sequencer

  /** The error the firmware logs when the write starting with `command` is refused. */
  function RefusalError(command: byte): Option<Error>
  {
    if command == SoftReset then Some(ResetFailed)
    else if command == ReadUserRegister then Some(RegisterModeFailed)
    else if command == ReadEeprom then Some(EepromAddressFailed)
    else if command == StartMeasurement then Some(MeasureModeFailed)
    else None
  }

  function Last<T>(s: seq<T>): T
    requires s != []
  {
    s[|s| - 1]
  }

  // ---------------------------------------------------------------------
  // How a pass ends

  /** `unit` is unset or one of the five labels of FLOW_UNIT. */
  predicate UnitInTable(u: Option<string>)
  {
    u.None? || u.value in FlowUnits
  }

  /**
   * The last two events of `t` are a write of one of the four commands,
   * answered with `code`, and the error the firmware logs for that command.
   */
  predicate FailedWriteLast(t: seq<Event>, code: byte)
  {
    |t| >= 2 && t[|t| - 2].Transmit? && t[|t| - 2].ret == code
    && t[|t| - 2].payload != []
    && t[|t| - 1].ErrorLogged?
    && RefusalError(t[|t| - 2].payload[0]) == Some(t[|t| - 1].error)
  }

  /**
   * What every stage of a pass guarantees about the pass it finishes when
   * started in `m`: how it ends, and what becomes of `unit`.
   */
  predicate StageEnds(m: Machine, p: Pass)
  {
    (p.verdict.Ret? && p.verdict.code != 0 ==> FailedWriteLast(p.after.trace, p.verdict.code))
    && (p.verdict == Ret(0) ==> p.after.trace != [] && ExitEvent(Last(p.after.trace)))
    && (UnitInTable(m.unit) ==> UnitInTable(p.after.unit))
    && (m.unit.Some? ==> p.after.unit.Some?)
  }

  lemma MeasureModeStageEnds(m: Machine)
    ensures StageEnds(m, MeasureModeStage(m))
    ensures var p := MeasureModeStage(m);
      (p.verdict == Ret(0) ==> Last(p.after.trace) == Transmit([StartMeasurement], 0))
      && (p.verdict.Ret? && p.verdict.code != 0 ==>
            p.after.trace[|p.after.trace| - 2..] == [Transmit([StartMeasurement], p.verdict.code), ErrorLogged(MeasureModeFailed)])
      && (p.verdict.Starved? <==> m.codes == [])
  {
  }

  /** Storing the calibration keeps `unit` in the table and never unsets it. */
  lemma CalibratedKeepsUnit(m: Machine)
    requires |m.rx| >= CalibrationLength
    ensures UnitInTable(m.unit) ==> UnitInTable(Calibrated(m).unit)
    ensures m.unit.Some? ==> Calibrated(m).unit.Some?
  {
    UnitSwitchMatchesTables(BigEndian(m.rx[3], m.rx[4]));
  }

  lemma CalibrationStageEnds(m: Machine, address: u16)
    ensures StageEnds(m, CalibrationStage(m, address))
  {
    forall m': Machine | |m'.rx| >= CalibrationLength
      ensures StageEnds(m', MeasureModeStage(Calibrated(m')))
    {
      MeasureModeStageEnds(Calibrated(m'));
      CalibratedKeepsUnit(m');
    }
  }

  lemma ConfigStageEnds(m: Machine)
    ensures StageEnds(m, ConfigStage(m))
  {
    forall m': Machine, address: u16 ensures StageEnds(m', CalibrationStage(m', address)) {
      CalibrationStageEnds(m', address);
    }
  }

  lemma ResetStageEnds(m: Machine)
    ensures StageEnds(m, ResetStage(m))
  {
    forall m': Machine ensures StageEnds(m', ConfigStage(m')) {
      ConfigStageEnds(m');
    }
  }

  lemma AttemptEnds(m: Machine)
    ensures StageEnds(m, Attempt(m))
  {
    ResetStageEnds(Delayed(m, RetryDelayMs));
  }

  /**
   * A pass ends with a non-zero `ret` only when one of the four writes was
   * refused: the pass's last two events are that write, with the code the
   * bus returned, and the error it logged.
   */
  lemma FailedWriteEndsPass(m: Machine)
    requires Attempt(m).verdict.Ret? && Attempt(m).verdict.code != 0
    ensures FailedWriteLast(Attempt(m).after.trace, Attempt(m).verdict.code)
  {
    AttemptEnds(m);
  }

  /**
   * A pass that leaves `ret == 0` either had the measurement command
   * acknowledged or stopped at a short read after a successful write.
   */
  lemma CleanPassEndsWithExitEvent(m: Machine)
    requires Attempt(m).verdict == Ret(0)
    ensures Attempt(m).after.trace != [] && ExitEvent(Last(Attempt(m).after.trace))
  {
    AttemptEnds(m);
  }

  /** The loop only ever ends normally through an exit event. */
  lemma {:induction false} StartupEndsWithExitEvent(m: Machine)
    requires Startup(m).verdict.Ret?
    ensures Startup(m).after.trace != [] && ExitEvent(Last(Startup(m).after.trace))
    decreases |m.codes|
  {
    var p := Attempt(m);
    if p.verdict.Ret? && p.verdict.code != 0 {
      StartupEndsWithExitEvent(p.after);
    } else {
      CleanPassEndsWithExitEvent(m);
    }
  }

  // ---------------------------------------------------------------------
  // Bus outcomes are consumed from the front, in order

  /** `s` is what is left of `t` once some of its first elements have been taken. */
  ghost predicate Suffix<T>(s: seq<T>, t: seq<T>)
  {
    |s| <= |t| && s == t[|t| - |s|..]
  }

  /** From `m` to `m'`, write results and replies were only ever taken from the front. */
  ghost predicate ConsumedInOrder(m: Machine, m': Machine)
  {
    Suffix(m'.codes, m.codes) && Suffix(m'.replies, m.replies)
  }

  lemma SuffixTransitive<T>(a: seq<T>, b: seq<T>, c: seq<T>)
    requires Suffix(b, a) && Suffix(c, b)
    ensures Suffix(c, a)
  {
    assert a[|a| - |b|..][|b| - |c|..] == a[|a| - |c|..];
  }

  lemma ConsumedTransitive(m: Machine, m1: Machine, m2: Machine)
    requires ConsumedInOrder(m, m1) && ConsumedInOrder(m1, m2)
    ensures ConsumedInOrder(m, m2)
  {
    SuffixTransitive(m.codes, m1.codes, m2.codes);
    SuffixTransitive(m.replies, m1.replies, m2.replies);
  }

  /** A state that has consumed nothing. */
  lemma ConsumedNothing(m: Machine, m': Machine)
    requires m'.codes == m.codes && m'.replies == m.replies
    ensures ConsumedInOrder(m, m')
  {
    assert m.codes[0..] == m.codes && m.replies[0..] == m.replies;
  }

  lemma SentConsumes(m: Machine, payload: seq<byte>)
    ensures ConsumedInOrder(m, Sent(m, payload).0)
  {
    if m.codes == [] {
      ConsumedNothing(m, m);
    } else {
      ConsumedNothing(m, m.(codes := m.codes));
    }
  }

  lemma RequestedConsumes(m: Machine, quantity: nat)
    requires m.replies != []
    ensures ConsumedInOrder(m, Requested(m, quantity).value)
  {
    ConsumedNothing(m, m);
  }

  lemma MeasureModeStageConsumes(m: Machine)
    ensures ConsumedInOrder(m, MeasureModeStage(m).after)
  {
    SentConsumes(m, [StartMeasurement]);
  }

  lemma CalibrationStageConsumes(m: Machine, address: u16)
    ensures ConsumedInOrder(m, CalibrationStage(m, address).after)
  {
    var payload := [ReadEeprom, AddressHigh(address), AddressLow(address)];
    SentConsumes(m, payload);
    var m1 := Sent(m, payload).0;
    if m.codes != [] && m.codes[0] == 0 && m1.replies != [] {
      RequestedConsumes(m1, CalibrationLength);
      var m2 := Requested(m1, CalibrationLength).value;
      ConsumedTransitive(m, m1, m2);
      if |m2.rx| >= CalibrationLength {
        var m3 := Calibrated(m2);
        MeasureModeStageConsumes(m3);
        ConsumedTransitive(m, m3, MeasureModeStage(m3).after);
      }
    }
  }

  lemma ConfigStageConsumes(m: Machine)
    ensures ConsumedInOrder(m, ConfigStage(m).after)
  {
    SentConsumes(m, [ReadUserRegister]);
    var m1 := Sent(m, [ReadUserRegister]).0;
    if m.codes != [] && m.codes[0] == 0 && m1.replies != [] {
      RequestedConsumes(m1, UserRegisterLength);
      var m2 := Requested(m1, UserRegisterLength).value;
      ConsumedTransitive(m, m1, m2);
      if |m2.rx| >= UserRegisterLength {
        var m3 := m2.(rx := m2.rx[2..]);
        var index := ConfigIndex(BigEndian(m2.rx[0], m2.rx[1]));
        if index < 5 {
          CalibrationStageConsumes(m3, ScaleFactorAddresses[index]);
          ConsumedTransitive(m, m3, CalibrationStage(m3, ScaleFactorAddresses[index]).after);
        }
      }
    }
  }

  lemma ResetStageConsumes(m: Machine)
    ensures ConsumedInOrder(m, ResetStage(m).after)
  {
    SentConsumes(m, [SoftReset]);
    var m1 := Sent(m, [SoftReset]).0;
    if m.codes != [] && m.codes[0] == 0 {
      var m2 := Delayed(m1, ResetSettleMs);
      ConfigStageConsumes(m2);
      ConsumedTransitive(m, m2, ConfigStage(m2).after);
    }
  }

  /** One pass takes write results and replies only from the front of what is left. */
  lemma AttemptConsumesInOrder(m: Machine)
    ensures ConsumedInOrder(m, Attempt(m).after)
  {
    ResetStageConsumes(Delayed(m, RetryDelayMs));
  }

  /** So does the whole start-up loop, however many passes it takes. */
  lemma {:induction false} StartupConsumesInOrder(m: Machine)
    ensures ConsumedInOrder(m, Startup(m).after)
    decreases |m.codes|
  {
    var p := Attempt(m);
    AttemptConsumesInOrder(m);
    if p.verdict.Ret? && p.verdict.code != 0 {
      StartupConsumesInOrder(p.after);
      ConsumedTransitive(m, p.after, Startup(p.after).after);
    }
  }

  // ---------------------------------------------------------------------
  // Retrying

  /**
   * A refused soft reset ends the pass at once (no READ_CONFIG step), and
   * the loop starts over from the retry delay and the soft reset.
   */
  lemma ResetFailureRestarts(m: Machine)
    requires m.codes != [] && m.codes[0] != 0
    ensures var m' := m.(codes := m.codes[1..],
                         trace := m.trace + [Delay(RetryDelayMs), Transmit([SoftReset], m.codes[0]), ErrorLogged(ResetFailed)]);
      Attempt(m) == Pass(m', Ret(m.codes[0]))
      && Startup(m) == Startup(m')
      && (m'.codes != [] ==>
            Attempt(m').after.trace[|m'.trace|] == Delay(RetryDelayMs)
            && Attempt(m').after.trace[|m'.trace| + 1] == Transmit([SoftReset], m'.codes[0]))
  {
    var m1 := Delayed(m, RetryDelayMs);
    SoftResetRefused(m1);
    assert m1.trace + [Transmit([SoftReset], m.codes[0]), ErrorLogged(ResetFailed)]
        == m.trace + [Delay(RetryDelayMs), Transmit([SoftReset], m.codes[0]), ErrorLogged(ResetFailed)];
  }

  /** A refused soft reset logs its error and ends the pass with the bus's code. */
  lemma SoftResetRefused(m: Machine)
    requires m.codes != [] && m.codes[0] != 0
    ensures ResetStage(m) == Pass(
      m.(codes := m.codes[1..], trace := m.trace + [Transmit([SoftReset], m.codes[0]), ErrorLogged(ResetFailed)]),
      Ret(m.codes[0]))
  {
  }

  /** After any refused write the loop runs another pass, which begins with the retry delay. */
  lemma RetryBeginsWithDelay(m: Machine)
    requires Attempt(m).verdict.Ret? && Attempt(m).verdict.code != 0
    ensures var a := Attempt(m).after;
      Startup(m) == Startup(a)
      && |Startup(m).after.trace| > |a.trace|
      && Startup(m).after.trace[|a.trace|] == Delay(RetryDelayMs)
  {
  }

  // ---------------------------------------------------------------------
  // The events of an acknowledged pass, stage by stage

  /** The retry delay, the acknowledged soft reset and the settle delay. */
  const ResetEvents: seq<Event> := [Delay(RetryDelayMs), Transmit([SoftReset], 0), Delay(ResetSettleMs)]

  /** The acknowledged READ_CONFIG write and a complete two-byte read. */
  const ConfigEvents: seq<Event> :=
    [Transmit([ReadUserRegister], 0), Request(UserRegisterLength, UserRegisterLength)]

  /** The acknowledged EEPROM address write for `address` and a complete six-byte read. */
  function CalibrationEvents(address: u16): seq<Event>
  {
    [Transmit([ReadEeprom, AddressHigh(address), AddressLow(address)], 0),
     Request(CalibrationLength, CalibrationLength)]
  }

  /** What mapping the unit code logs: nothing, or the unmapped code. */
  function UnitEvents(code: u16): seq<Event>
  {
    if UnitForCode(code).None? then [ErrorLogged(UnmappedUnit(code))] else []
  }

  /** The field address a user-register reply selects. */
  function SelectedAddress(reply: seq<byte>): u16
    requires |reply| >= UserRegisterLength && ConfigIndex(BigEndian(reply[0], reply[1])) < 5
  {
    ScaleFactorAddresses[ConfigIndex(BigEndian(reply[0], reply[1]))]
  }

  /** A pass that does not end with a non-zero `ret` is the last one. */
  lemma StartupStops(m: Machine)
    requires !(Attempt(m).verdict.Ret? && Attempt(m).verdict.code != 0)
    ensures Startup(m) == Attempt(m)
  {
  }

  /** An acknowledged soft reset hands over to READ_CONFIG after the settle delay. */
  lemma ResetAcknowledged(m: Machine) returns (m3: Machine)
    requires m.codes != [] && m.codes[0] == 0
    ensures m3 == m.(codes := m.codes[1..], trace := m.trace + ResetEvents)
    ensures Attempt(m) == ConfigStage(m3)
  {
    var m1 := Delayed(m, RetryDelayMs);
    var m2 := m1.(codes := m.codes[1..], trace := m1.trace + [Transmit([SoftReset], 0)]);
    assert Sent(m1, [SoftReset]) == (m2, Some(0));
    m3 := Delayed(m2, ResetSettleMs);
  }

  /**
   * A complete user-register read selects the calibration field; for a
   * field inside the table the pass goes on to READ_CALIBRATION.
   */
  lemma RegisterAcknowledged(m: Machine) returns (m6: Machine, address: u16)
    requires m.codes != [] && m.codes[0] == 0
    requires m.replies != [] && |m.replies[0]| >= UserRegisterLength
    requires ConfigIndex(BigEndian(m.replies[0][0], m.replies[0][1])) < 5
    ensures address == SelectedAddress(m.replies[0])
    ensures m6 == m.(codes := m.codes[1..], replies := m.replies[1..], rx := [], trace := m.trace + ConfigEvents)
    ensures ConfigStage(m) == CalibrationStage(m6, address)
  {
    var m4 := m.(codes := m.codes[1..], trace := m.trace + [Transmit([ReadUserRegister], 0)]);
    assert Sent(m, [ReadUserRegister]) == (m4, Some(0));
    var r0 := m.replies[0];
    var got := if |r0| <= UserRegisterLength then r0 else r0[..UserRegisterLength];
    assert got[2..] == [];
    var m5 := m4.(replies := m.replies[1..], rx := got,
                  trace := m4.trace + [Request(UserRegisterLength, UserRegisterLength)]);
    assert Requested(m4, UserRegisterLength) == Some(m5);
    assert got[0] == r0[0] && got[1] == r0[1];
    address := SelectedAddress(r0);
    m6 := m5.(rx := []);
  }

  /**
   * A user register whose bits 6..4 name field 5, 6 or 7 selects no
   * address: the pass stops there, after the acknowledged READ_CONFIG and
   * the register read, without sending an EEPROM address, and it is the
   * last pass. (The C code reads past the end of its address table here.)
   */
  lemma IndexOutOfRangeStops(m: Machine)
    requires |m.codes| >= 2 && m.codes[0] == 0 && m.codes[1] == 0
    requires m.replies != [] && |m.replies[0]| >= UserRegisterLength
    requires ConfigIndex(BigEndian(m.replies[0][0], m.replies[0][1])) >= 5
    ensures var index := ConfigIndex(BigEndian(m.replies[0][0], m.replies[0][1]));
      var p := Pass(m.(codes := m.codes[2..], replies := m.replies[1..], rx := [],
                       trace := m.trace + ResetEvents + ConfigEvents),
                    IndexOutOfRange(index));
      Attempt(m) == p && Startup(m) == p
  {
    var m3 := ResetAcknowledged(m);
    var m4 := m3.(codes := m3.codes[1..], trace := m3.trace + [Transmit([ReadUserRegister], 0)]);
    assert Sent(m3, [ReadUserRegister]) == (m4, Some(0));
    var r0 := m.replies[0];
    var got := if |r0| <= UserRegisterLength then r0 else r0[..UserRegisterLength];
    assert got[2..] == [];
    var m5 := m4.(replies := m.replies[1..], rx := got,
                  trace := m4.trace + [Request(UserRegisterLength, UserRegisterLength)]);
    assert Requested(m4, UserRegisterLength) == Some(m5);
    assert got[0] == r0[0] && got[1] == r0[1];
    assert m4.codes == m.codes[2..];
  }

  /** The EEPROM address write, acknowledged, followed by the six-byte request. */
  lemma EepromAddressAcknowledged(m: Machine, address: u16) returns (m8: Machine)
    requires m.codes != [] && m.codes[0] == 0 && m.replies != []
    ensures var n := if |m.replies[0]| <= CalibrationLength then |m.replies[0]| else CalibrationLength;
      m8 == m.(codes := m.codes[1..], replies := m.replies[1..], rx := m.replies[0][..n],
               trace := m.trace + [Transmit([ReadEeprom, AddressHigh(address), AddressLow(address)], 0),
                                   Request(CalibrationLength, n)])
    ensures CalibrationStage(m, address) ==
      if |m8.rx| < CalibrationLength then Pass(Logged(m8, EepromReadShort), Ret(0))
      else MeasureModeStage(Calibrated(m8))
  {
    var payload := [ReadEeprom, AddressHigh(address), AddressLow(address)];
    var m7 := m.(codes := m.codes[1..], trace := m.trace + [Transmit(payload, 0)]);
    assert Sent(m, payload) == (m7, Some(0));
    m8 := Requested(m7, CalibrationLength).value;
    assert m.replies[0] == m.replies[0][..|m.replies[0]|];
  }

  /** The EEPROM address write acknowledged and all six calibration bytes delivered. */
  lemma CalibrationRead(m: Machine, address: u16) returns (m8: Machine)
    requires m.codes != [] && m.codes[0] == 0 && m.replies != [] && |m.replies[0]| >= CalibrationLength
    ensures m8 == m.(codes := m.codes[1..], replies := m.replies[1..], rx := m.replies[0][..CalibrationLength],
                     trace := m.trace + CalibrationEvents(address))
    ensures CalibrationStage(m, address) == MeasureModeStage(Calibrated(m8))
  {
    m8 := EepromAddressAcknowledged(m, address);
  }

  /**
   * Six calibration bytes in the receive buffer and an acknowledged
   * measurement command: the scale factor and (for a mapped code) the unit
   * are set, and the pass ends with `ret == 0`.
   */
  lemma CalibrationAccepted(m: Machine) returns (p: Pass)
    requires |m.rx| >= CalibrationLength && m.codes != [] && m.codes[0] == 0
    ensures var code := BigEndian(m.rx[3], m.rx[4]);
      p == Pass(m.(codes := m.codes[1..], rx := m.rx[6..], scaleFactor := BigEndian(m.rx[0], m.rx[1]),
                   unit := if UnitForCode(code).Some? then UnitForCode(code) else m.unit,
                   trace := m.trace + UnitEvents(code) + [Transmit([StartMeasurement], 0)]),
                Ret(0))
    ensures MeasureModeStage(Calibrated(m)) == p
  {
    var m9 := Calibrated(m);
    var m10 := m9.(codes := m9.codes[1..], trace := m9.trace + [Transmit([StartMeasurement], 0)]);
    assert Sent(m9, [StartMeasurement]) == (m10, Some(0));
    p := Pass(m10, Ret(0));
  }

  // ---------------------------------------------------------------------
  // Short reads leave the loop

  /**
   * A user-register read that delivers fewer than two bytes ends start-up
   * with `ret == 0`: no EEPROM read, no measurement command, and the
   * session's scale factor and unit untouched.
   */
  lemma ShortRegisterReadExits(m: Machine)
    requires |m.codes| >= 2 && m.codes[0] == 0 && m.codes[1] == 0
    requires m.replies != [] && |m.replies[0]| < UserRegisterLength
    ensures Startup(m) == Pass(
      m.(codes := m.codes[2..], replies := m.replies[1..], rx := m.replies[0],
         trace := m.trace + ResetEvents
                  + [Transmit([ReadUserRegister], 0), Request(UserRegisterLength, |m.replies[0]|),
                     ErrorLogged(RegisterReadShort)]),
      Ret(0))
  {
    var p := ShortRegisterReadPass(m);
    StartupStops(m);
  }

  lemma ShortRegisterReadPass(m: Machine) returns (p: Pass)
    requires |m.codes| >= 2 && m.codes[0] == 0 && m.codes[1] == 0
    requires m.replies != [] && |m.replies[0]| < UserRegisterLength
    ensures p == Pass(
      m.(codes := m.codes[2..], replies := m.replies[1..], rx := m.replies[0],
         trace := m.trace + ResetEvents
                  + [Transmit([ReadUserRegister], 0), Request(UserRegisterLength, |m.replies[0]|),
                     ErrorLogged(RegisterReadShort)]),
      Ret(0))
    ensures Attempt(m) == p
  {
    var m3 := ResetAcknowledged(m);
    var m4 := m3.(codes := m.codes[2..], trace := m3.trace + [Transmit([ReadUserRegister], 0)]);
    assert Sent(m3, [ReadUserRegister]) == (m4, Some(0));
    var m5 := m4.(replies := m.replies[1..], rx := m.replies[0],
                  trace := m4.trace + [Request(UserRegisterLength, |m.replies[0]|)]);
    assert Requested(m4, UserRegisterLength) == Some(m5);
    p := Pass(Logged(m5, RegisterReadShort), Ret(0));
    assert ConfigStage(m3) == p;
  }

  /**
   * An EEPROM read that delivers fewer than six bytes ends start-up with
   * `ret == 0`, before the measurement command is sent, and leaves the
   * scale factor and the unit as they were.
   */
  lemma ShortEepromReadExits(m: Machine)
    requires |m.codes| >= 3 && m.codes[0] == 0 && m.codes[1] == 0 && m.codes[2] == 0
    requires |m.replies| >= 2 && |m.replies[0]| >= UserRegisterLength && |m.replies[1]| < CalibrationLength
    requires ConfigIndex(BigEndian(m.replies[0][0], m.replies[0][1])) < 5
    ensures var address := SelectedAddress(m.replies[0]);
      Startup(m) == Pass(
        m.(codes := m.codes[3..], replies := m.replies[2..], rx := m.replies[1],
           trace := m.trace + ResetEvents + ConfigEvents
                    + [Transmit([ReadEeprom, AddressHigh(address), AddressLow(address)], 0),
                       Request(CalibrationLength, |m.replies[1]|), ErrorLogged(EepromReadShort)]),
        Ret(0))
  {
    var p := ShortEepromReadPass(m);
    StartupStops(m);
  }

  lemma ShortEepromReadPass(m: Machine) returns (p: Pass)
    requires |m.codes| >= 3 && m.codes[0] == 0 && m.codes[1] == 0 && m.codes[2] == 0
    requires |m.replies| >= 2 && |m.replies[0]| >= UserRegisterLength && |m.replies[1]| < CalibrationLength
    requires ConfigIndex(BigEndian(m.replies[0][0], m.replies[0][1])) < 5
    ensures var address := SelectedAddress(m.replies[0]);
      p == Pass(
        m.(codes := m.codes[3..], replies := m.replies[2..], rx := m.replies[1],
           trace := m.trace + ResetEvents + ConfigEvents
                    + [Transmit([ReadEeprom, AddressHigh(address), AddressLow(address)], 0),
                       Request(CalibrationLength, |m.replies[1]|), ErrorLogged(EepromReadShort)]),
        Ret(0))
    ensures Attempt(m) == p
  {
    var m3 := ResetAcknowledged(m);
    var m6, address := RegisterAcknowledged(m3);
    var m8 := EepromAddressAcknowledged(m6, address);
    assert m.replies[1][..|m.replies[1]|] == m.replies[1];
    assert m8.codes == m.codes[1..][1..][1..] == m.codes[3..];
    assert m8.replies == m.replies[1..][1..] == m.replies[2..];
    p := Pass(Logged(m8, EepromReadShort), Ret(0));
  }

  // ---------------------------------------------------------------------
  // A successful pass

  /**
   * When every write is acknowledged and both reads are complete, start-up
   * ends after one pass: the scale factor is the EEPROM word, the unit the
   * label of the EEPROM unit code (or what it was, for an unmapped code),
   * an unmapped code is logged, and the last thing sent is the measurement
   * command.
   */
  lemma CleanStartup(m: Machine)
    requires |m.codes| >= 4 && m.codes[0] == 0 && m.codes[1] == 0 && m.codes[2] == 0 && m.codes[3] == 0
    requires |m.replies| >= 2 && |m.replies[0]| >= UserRegisterLength && |m.replies[1]| >= CalibrationLength
    requires ConfigIndex(BigEndian(m.replies[0][0], m.replies[0][1])) < 5
    ensures var cal := m.replies[1];
      var code := BigEndian(cal[3], cal[4]);
      var p := Startup(m);
      p.verdict == Ret(0)
      && p.after.scaleFactor == BigEndian(cal[0], cal[1])
      && p.after.unit == (if UnitForCode(code).Some? then UnitForCode(code) else m.unit)
      && p.after.codes == m.codes[4..] && p.after.replies == m.replies[2..]
      && p.after.trace == m.trace + ResetEvents + ConfigEvents + CalibrationEvents(SelectedAddress(m.replies[0]))
                          + UnitEvents(code) + [Transmit([StartMeasurement], 0)]
  {
    var p := CleanPass(m);
    StartupStops(m);
  }

  lemma CleanPass(m: Machine) returns (p: Pass)
    requires |m.codes| >= 4 && m.codes[0] == 0 && m.codes[1] == 0 && m.codes[2] == 0 && m.codes[3] == 0
    requires |m.replies| >= 2 && |m.replies[0]| >= UserRegisterLength && |m.replies[1]| >= CalibrationLength
    requires ConfigIndex(BigEndian(m.replies[0][0], m.replies[0][1])) < 5
    ensures var cal := m.replies[1];
      var code := BigEndian(cal[3], cal[4]);
      p.verdict == Ret(0)
      && p.after.scaleFactor == BigEndian(cal[0], cal[1])
      && p.after.unit == (if UnitForCode(code).Some? then UnitForCode(code) else m.unit)
      && p.after.codes == m.codes[4..] && p.after.replies == m.replies[2..]
      && p.after.trace == m.trace + ResetEvents + ConfigEvents + CalibrationEvents(SelectedAddress(m.replies[0]))
                          + UnitEvents(code) + [Transmit([StartMeasurement], 0)]
    ensures Attempt(m) == p
  {
    var m3 := ResetAcknowledged(m);
    var m6, address := RegisterAcknowledged(m3);
    var m8 := CalibrationRead(m6, address);
    p := CalibrationAccepted(m8);
    var cal := m.replies[1];
    assert m8.rx[0] == cal[0] && m8.rx[1] == cal[1] && m8.rx[3] == cal[3] && m8.rx[4] == cal[4];
    assert p.after.codes == m.codes[1..][1..][1..][1..] == m.codes[4..];
    assert p.after.replies == m.replies[1..][1..] == m.replies[2..];
  }

  // ---------------------------------------------------------------------
  // A refused write ends the pass with the bus's code and restarts the loop

  /** A refused READ_CONFIG write logs its error and ends the pass with the bus's code. */
  lemma RegisterModeRefused(m: Machine)
    requires m.codes != [] && m.codes[0] != 0
    ensures ConfigStage(m) == Pass(
      m.(codes := m.codes[1..],
         trace := m.trace + [Transmit([ReadUserRegister], m.codes[0]), ErrorLogged(RegisterModeFailed)]),
      Ret(m.codes[0]))
  {
  }

  /** A refused EEPROM address write logs its error and ends the pass with the bus's code. */
  lemma EepromAddressRefused(m: Machine, address: u16)
    requires m.codes != [] && m.codes[0] != 0
    ensures CalibrationStage(m, address) == Pass(
      m.(codes := m.codes[1..],
         trace := m.trace + [Transmit([ReadEeprom, AddressHigh(address), AddressLow(address)], m.codes[0]),
                             ErrorLogged(EepromAddressFailed)]),
      Ret(m.codes[0]))
  {
  }

  /** A refused measurement command logs its error and ends the pass with the bus's code. */
  lemma MeasureModeRefused(m: Machine)
    requires m.codes != [] && m.codes[0] != 0
    ensures MeasureModeStage(m) == Pass(
      m.(codes := m.codes[1..],
         trace := m.trace + [Transmit([StartMeasurement], m.codes[0]), ErrorLogged(MeasureModeFailed)]),
      Ret(m.codes[0]))
  {
  }

  /**
   * After an acknowledged soft reset, a refused READ_CONFIG write ends the
   * pass with its code, and the loop starts over from that state.
   */
  lemma RegisterModeRefusedRestarts(m: Machine)
    requires |m.codes| >= 2 && m.codes[0] == 0 && m.codes[1] != 0
    ensures var m' := m.(codes := m.codes[2..],
                         trace := m.trace + ResetEvents
                                  + [Transmit([ReadUserRegister], m.codes[1]), ErrorLogged(RegisterModeFailed)]);
      Attempt(m) == Pass(m', Ret(m.codes[1])) && Startup(m) == Startup(m')
  {
    var m3 := ResetAcknowledged(m);
    RegisterModeRefused(m3);
    assert m3.codes[1..] == m.codes[2..];
  }

  /**
   * After a complete user-register read, a refused EEPROM address write
   * ends the pass with its code, and the loop starts over from that state.
   */
  lemma EepromAddressRefusedRestarts(m: Machine)
    requires |m.codes| >= 3 && m.codes[0] == 0 && m.codes[1] == 0 && m.codes[2] != 0
    requires m.replies != [] && |m.replies[0]| >= UserRegisterLength
    requires ConfigIndex(BigEndian(m.replies[0][0], m.replies[0][1])) < 5
    ensures var address := SelectedAddress(m.replies[0]);
      var m' := m.(codes := m.codes[3..], replies := m.replies[1..], rx := [],
                   trace := m.trace + ResetEvents + ConfigEvents
                            + [Transmit([ReadEeprom, AddressHigh(address), AddressLow(address)], m.codes[2]),
                               ErrorLogged(EepromAddressFailed)]);
      Attempt(m) == Pass(m', Ret(m.codes[2])) && Startup(m) == Startup(m')
  {
    var m3 := ResetAcknowledged(m);
    var m6, address := RegisterAcknowledged(m3);
    EepromAddressRefused(m6, address);
    assert m6.codes[1..] == m.codes[1..][1..][1..] == m.codes[3..];
  }

  /** Storing the six calibration bytes in the receive buffer. */
  lemma CalibrationStored(m: Machine) returns (m9: Machine)
    requires |m.rx| >= CalibrationLength
    ensures var code := BigEndian(m.rx[3], m.rx[4]);
      m9 == m.(rx := m.rx[6..], scaleFactor := BigEndian(m.rx[0], m.rx[1]),
               unit := if UnitForCode(code).Some? then UnitForCode(code) else m.unit,
               trace := m.trace + UnitEvents(code))
    ensures Calibrated(m) == m9
  {
    m9 := Calibrated(m);
  }

  /**
   * After the calibration has been read and stored, a refused measurement
   * command ends the pass with its code; the loop starts over from that
   * state, which keeps the scale factor and unit just stored.
   */
  lemma MeasureModeRefusedRestarts(m: Machine)
    requires |m.codes| >= 4 && m.codes[0] == 0 && m.codes[1] == 0 && m.codes[2] == 0 && m.codes[3] != 0
    requires |m.replies| >= 2 && |m.replies[0]| >= UserRegisterLength && |m.replies[1]| >= CalibrationLength
    requires ConfigIndex(BigEndian(m.replies[0][0], m.replies[0][1])) < 5
    ensures var cal := m.replies[1];
      var code := BigEndian(cal[3], cal[4]);
      var m' := m.(codes := m.codes[4..], replies := m.replies[2..], rx := [],
                   scaleFactor := BigEndian(cal[0], cal[1]),
                   unit := if UnitForCode(code).Some? then UnitForCode(code) else m.unit,
                   trace := m.trace + ResetEvents + ConfigEvents + CalibrationEvents(SelectedAddress(m.replies[0]))
                            + UnitEvents(code) + [Transmit([StartMeasurement], m.codes[3]), ErrorLogged(MeasureModeFailed)]);
      Attempt(m) == Pass(m', Ret(m.codes[3])) && Startup(m) == Startup(m')
  {
    var m3 := ResetAcknowledged(m);
    var m6, address := RegisterAcknowledged(m3);
    var m8 := CalibrationRead(m6, address);
    var m9 := CalibrationStored(m8);
    MeasureModeRefused(m9);
    var cal := m.replies[1];
    assert m8.rx[0] == cal[0] && m8.rx[1] == cal[1] && m8.rx[3] == cal[3] && m8.rx[4] == cal[4];
    assert m8.rx[6..] == [];
    assert m9.codes[1..] == m.codes[1..][1..][1..][1..] == m.codes[4..];
    assert m9.replies == m.replies[1..][1..] == m.replies[2..];
  }

  /** Start-up keeps `unit` either unset or one of the five table labels. */
  lemma {:induction false} StartupKeepsUnitInTable(m: Machine)
    requires UnitInTable(m.unit)
    ensures UnitInTable(Startup(m).after.unit)
    decreases |m.codes|
  {
    var p := Attempt(m);
    AttemptEnds(m);
    if p.verdict.Ret? && p.verdict.code != 0 {
      StartupKeepsUnitInTable(p.after);
    }
  }

  /** Once set, `unit` is never unset again by start-up. */
  lemma {:induction false} StartupNeverUnsetsUnit(m: Machine)
    requires m.unit.Some?
    ensures Startup(m).after.unit.Some?
    decreases |m.codes|
  {
    var p := Attempt(m);
    AttemptEnds(m);
    if p.verdict.Ret? && p.verdict.code != 0 {
      StartupNeverUnsetsUnit(p.after);
    }
  }

  // ---------------------------------------------------------------------
  // Scenarios

  /**
   * User register 0x0030 selects calibration field 3 at EEPROM address
   * 0xBB6, written as the bytes 0xBB 0x60; scale factor bytes 0x03 0xE8 give
   * 1000, and the unit code bytes 0x08 0x3C give 2108, which is not in the
   * table: it is logged and the unit keeps its previous value.
   */
  lemma UnmappedUnitScenario(m: Machine, crc1: byte, crc2: byte)
    requires m.codes == [0, 0, 0, 0] && m.replies == [[0x00, 0x30], [0x03, 0xE8, crc1, 0x08, 0x3C, crc2]]
    ensures var p := Startup(m);
      p.verdict == Ret(0) && p.after.scaleFactor == 1000 && p.after.unit == m.unit
      && p.after.trace == m.trace + [Delay(1000), Transmit([0xFE], 0), Delay(50), Transmit([0xE3], 0), Request(2, 2),
                                     Transmit([0xFA, 0xBB, 0x60], 0), Request(6, 6),
                                     ErrorLogged(UnmappedUnit(2108)), Transmit([0xF1], 0)]
  {
    var reg, cal := m.replies[0], m.replies[1];
    var address := DecodedAddress(reg, 3, 0xBB6);
    var scale := DecodedWord(cal[0], cal[1], 1000);
    var code := DecodedWord(cal[3], cal[4], 2108);
    CleanStartup(m);
    var tail := [Transmit([StartMeasurement], 0)];
    Flatten(m.trace, ResetEvents, ConfigEvents, CalibrationEvents(address), UnitEvents(code), tail);
    UnmappedUnitEvents(address, code);
  }

  lemma UnmappedUnitEvents(address: u16, code: u16)
    requires address == 0xBB6 && code == 2108
    ensures UnitForCode(code).None?
    ensures ResetEvents + ConfigEvents + CalibrationEvents(address) + UnitEvents(code) + [Transmit([StartMeasurement], 0)]
         == [Delay(1000), Transmit([0xFE], 0), Delay(50), Transmit([0xE3], 0), Request(2, 2),
             Transmit([0xFA, 0xBB, 0x60], 0), Request(6, 6), ErrorLogged(UnmappedUnit(2108)), Transmit([0xF1], 0)]
  {
    assert AddressHigh(address) == 0xBB && AddressLow(address) == 0x60;
  }

  /**
   * A refused soft reset, then a clean pass with unit code 2116: two retry
   * delays, and the unit ends as "ul/min".
   */
  lemma RetryScenario(m: Machine)
    requires m.codes == [2, 0, 0, 0, 0] && m.replies == [[0x00, 0x00], [0x00, 0x0A, 0x00, 0x08, 0x44, 0x00]]
    ensures var p := Startup(m);
      p.verdict == Ret(0) && p.after.scaleFactor == 10 && p.after.unit == Some("ul/min")
      && p.after.trace == m.trace + [Delay(1000), Transmit([0xFE], 2), ErrorLogged(ResetFailed),
                                     Delay(1000), Transmit([0xFE], 0), Delay(50), Transmit([0xE3], 0), Request(2, 2),
                                     Transmit([0xFA, 0x2B, 0x60], 0), Request(6, 6), Transmit([0xF1], 0)]
  {
    var reg, cal := m.replies[0], m.replies[1];
    var address := DecodedAddress(reg, 0, 0x2B6);
    var scale := DecodedWord(cal[0], cal[1], 10);
    var code := DecodedWord(cal[3], cal[4], 2116);
    ResetFailureThenClean(m);
    RetryEvents(address, code);
  }

  /** A refused soft reset followed by a clean pass. */
  lemma ResetFailureThenClean(m: Machine)
    requires |m.codes| >= 5 && m.codes[0] != 0
    requires m.codes[1] == 0 && m.codes[2] == 0 && m.codes[3] == 0 && m.codes[4] == 0
    requires |m.replies| >= 2 && |m.replies[0]| >= UserRegisterLength && |m.replies[1]| >= CalibrationLength
    requires ConfigIndex(BigEndian(m.replies[0][0], m.replies[0][1])) < 5
    ensures var cal := m.replies[1];
      var code := BigEndian(cal[3], cal[4]);
      var p := Startup(m);
      p.verdict == Ret(0)
      && p.after.scaleFactor == BigEndian(cal[0], cal[1])
      && p.after.unit == (if UnitForCode(code).Some? then UnitForCode(code) else m.unit)
      && p.after.trace == m.trace
           + ([Delay(RetryDelayMs), Transmit([SoftReset], m.codes[0]), ErrorLogged(ResetFailed)]
              + (ResetEvents + ConfigEvents + CalibrationEvents(SelectedAddress(m.replies[0]))
                 + UnitEvents(code) + [Transmit([StartMeasurement], 0)]))
  {
    var failed := [Delay(RetryDelayMs), Transmit([SoftReset], m.codes[0]), ErrorLogged(ResetFailed)];
    ResetFailureRestarts(m);
    var m' := m.(codes := m.codes[1..], trace := m.trace + failed);
    var code := BigEndian(m.replies[1][3], m.replies[1][4]);
    var address := SelectedAddress(m.replies[0]);
    CleanStartup(m');
    var tail := [Transmit([StartMeasurement], 0)];
    var pass := ResetEvents + ConfigEvents + CalibrationEvents(address) + UnitEvents(code) + tail;
    Flatten(m.trace + failed, ResetEvents, ConfigEvents, CalibrationEvents(address), UnitEvents(code), tail);
    AppendTwo(m.trace, failed, pass);
  }

  lemma RetryEvents(address: u16, code: u16)
    requires address == 0x2B6 && code == 2116
    ensures UnitForCode(code) == Some("ul/min")
    ensures [Delay(RetryDelayMs), Transmit([SoftReset], 2), ErrorLogged(ResetFailed)]
            + (ResetEvents + ConfigEvents + CalibrationEvents(address) + UnitEvents(code) + [Transmit([StartMeasurement], 0)])
         == [Delay(1000), Transmit([0xFE], 2), ErrorLogged(ResetFailed),
             Delay(1000), Transmit([0xFE], 0), Delay(50), Transmit([0xE3], 0), Request(2, 2),
             Transmit([0xFA, 0x2B, 0x60], 0), Request(6, 6), Transmit([0xF1], 0)]
  {
    assert AddressHigh(address) == 0x2B && AddressLow(address) == 0x60;
  }

  /** The big-endian word of two bytes, checked against its expected value. */
  lemma DecodedWord(hi: byte, lo: byte, expected: nat) returns (w: u16)
    requires (hi as int) * 0x100 + lo == expected
    ensures w == BigEndian(hi, lo) == expected
  {
    w := BigEndian(hi, lo);
  }

  /** The field address a user-register reply selects, checked against the expected index and address. */
  lemma DecodedAddress(reply: seq<byte>, index: nat, expected: u16) returns (address: u16)
    requires |reply| == UserRegisterLength && ((reply[0] as int) * 0x100 + reply[1]) / 16 % 8 == index < 5
    requires ScaleFactorAddresses[index] == expected
    ensures ConfigIndex(BigEndian(reply[0], reply[1])) == index
    ensures address == SelectedAddress(reply) == expected
  {
    address := SelectedAddress(reply);
  }

  lemma AppendTwo<T>(s: seq<T>, a: seq<T>, b: seq<T>)
    ensures s + a + b == s + (a + b)
  {
  }

  lemma Flatten<T>(s: seq<T>, a: seq<T>, b: seq<T>, c: seq<T>, d: seq<T>, e: seq<T>)
    ensures s + a + b + c + d + e == s + (a + b + c + d + e)
  {
  }

  // ---------------------------------------------------------------------
  // The measurement step

  /** A measurement step never changes the session, the injected writes or the trace before it. */
  lemma MeasureKeepsSession(m: Machine)
    ensures var r := MeasureStep(m);
      r.after.scaleFactor == m.scaleFactor && r.after.unit == m.unit && r.after.codes == m.codes
      && Extends(m, r.after)
  {
  }

  /** Fewer than two bytes: an error is logged, no byte is read and nothing is converted. */
  lemma MeasureShortRead(m: Machine)
    requires m.replies != [] && |m.replies[0]| < MeasurementLength
    ensures MeasureStep(m) == Measured(
      m.(replies := m.replies[1..], rx := m.replies[0],
         trace := m.trace + [Request(MeasurementLength, |m.replies[0]|), ErrorLogged(FlowReadShort)]),
      ReadError)
  {
  }

  /**
   * With two or more bytes delivered, exactly the first two are taken, most
   * significant first, and converted; a third (CRC) byte never reaches the
   * receive buffer, because only two are requested.
   */
  lemma MeasureReadsTwoBytes(m: Machine)
    requires m.replies != [] && |m.replies[0]| >= MeasurementLength
    ensures var b := m.replies[0];
      MeasureStep(m) == Measured(
        m.(replies := m.replies[1..], rx := [],
           trace := m.trace + [Request(MeasurementLength, MeasurementLength)]),
        Flow(Int16(BigEndian(b[0], b[1])), m.scaleFactor))
  {
    var b := m.replies[0];
    var got := if |b| <= MeasurementLength then b else b[..MeasurementLength];
    assert got[2..] == [];
  }

  /** The bytes 0xFF 0x9C read with scale factor 1000 give the pair (-100, 1000). */
  lemma NegativeFlowExample(m: Machine)
    requires m.scaleFactor == 1000 && m.replies != [] && m.replies[0] == [0xFF, 0x9C, 0x5A]
    ensures MeasureStep(m).sample == Flow(-100, 1000)
  {
    MeasureReadsTwoBytes(m);
  }
}
