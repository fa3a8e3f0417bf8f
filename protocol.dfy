/**
 * The liquid-flow sensor's protocol constants and the pure byte and bit
 * codecs that the firmware's start-up sequence and measurement step apply
 * to the bytes they exchange with the sensor.
 */
module Protocol {
  import opened Bits
  import opened Wrappers

  /** Command bytes. */
  const SoftReset: byte := 0xFE
  const ReadUserRegister: byte := 0xE3
  const ReadEeprom: byte := 0xFA
  const StartMeasurement: byte := 0xF1

  /** Delays of the start-up sequence, in milliseconds. */
  const RetryDelayMs: nat := 1000
  const ResetSettleMs: nat := 50

  /** Response lengths requested from the sensor. */
  const UserRegisterLength: nat := 2
  const CalibrationLength: nat := 6
  const MeasurementLength: nat := 2

  /** EEPROM addresses of the scale factor of calibration fields 0 to 4. */
  const ScaleFactorAddresses: seq<u16> := [0x2B6, 0x5B6, 0x8B6, 0xBB6, 0xEB6]

  /** The unit labels and the unit codes that select them, index by index. */
  const FlowUnits: seq<string> := ["nl/min", "ul/min", "ml/min", "ul/sec", "ml/h"]
  const FlowUnitCodes: seq<u16> := [2115, 2116, 2117, 2100, 2133]

  /**
   * Two bytes read most significant first, assembled as `w = hi << 8` then
   * `w |= lo` into a `uint16_t`: the big-endian value of the pair.
   */
  function BigEndian(hi: byte, lo: byte): (w: u16)
    ensures w == hi * 0x100 + lo
  {
    assert Pow2(8) == 0x100;
    OrDisjoint(hi, lo, 8);
    ToU16(Or(ToU16(Shl(hi, 8)), lo))
  }

  /** The first byte the sensor sends for a 16-bit word: `w >> 8`. */
  function HighByte(w: u16): (b: byte)
  {
    ToByte(Shr(w, 8))
  }

  /** The second byte the sensor sends for a 16-bit word: `w & 0xFF`. */
  function LowByte(w: u16): (b: byte)
  {
    ToByte(And(w, 0xFF))
  }

  /** Splitting an assembled word gives back the two bytes it was built from. */
  lemma BigEndianRoundTrip(hi: byte, lo: byte)
    ensures HighByte(BigEndian(hi, lo)) == hi && LowByte(BigEndian(hi, lo)) == lo
  {
    var w := BigEndian(hi, lo);
    assert Pow2(8) == 0x100;
    AndLowMask(w, 8);
    DivModUnique(w, 0x100, hi, lo);
  }

  /** Assembling the two bytes of a word gives back the word. */
  lemma BigEndianSplit(w: u16)
    ensures BigEndian(HighByte(w), LowByte(w)) == w
  {
    assert Pow2(8) == 0x100;
    AndLowMask(w, 8);
  }

  /**
   * The active calibration field, `(user_reg & 0x0070) >> 4`: bits 6 to 4
   * of the user register, so always one of 0 to 7.
   */
  function ConfigIndex(userReg: u16): (i: nat)
    ensures i < 8 && i == (userReg / 16) % 8
  {
    assert Pow2(4) == 16 && Pow2(3) == 8;
    AndShiftedMask(userReg, 7, 4);
    AndLowMask(userReg / 16, 3);
    Shr(And(userReg, 0x0070), 4)
  }

  /**
   * `SCALE_FACTOR_ADDRESSES[index]`. The table has five entries while a
   * configuration index can be as large as 7; the indices 5 to 7 read past
   * the end of the C array and are `None` here.
   */
  function FieldAddress(index: nat): (a: Option<u16>)
    ensures a.Some? <==> index < 5
    ensures a.Some? ==> a.value < 0x1000 && a.value % 0x100 == 0xB6
  {
    if index < |ScaleFactorAddresses| then Some(ScaleFactorAddresses[index]) else None
  }

  /** The first address byte written: `Wire.write(address >> 4)`, truncated to `uint8_t`. */
  function AddressHigh(a: u16): (b: byte)
    ensures b == (a / 16) % 0x100
    ensures a < 0x1000 ==> b == a / 16 && b * 16 + a % 16 == a
  {
    assert Pow2(4) == 16;
    ToByte(Shr(a, 4))
  }

  /**
   * The second address byte written: `Wire.write((address << 12) >> 8)`,
   * computed in 32-bit `int` (no overflow: `address << 12` is below 2^28)
   * and truncated to `uint8_t`: the low nibble of the address, moved to the
   * high nibble of the byte.
   */
  function AddressLow(a: u16): (b: byte)
    ensures b == (a % 16) * 16
  {
    assert Pow2(12) == 4096 && Pow2(8) == 256;
    assert Shl(a, 12) / 256 == a * 16;
    DivModUnique(a * 16, 256, a / 16, (a % 16) * 16);
    ToByte(Shr(Shl(a, 12), 8))
  }

  /**
   * For a 12-bit address the two bytes written are the address left-aligned
   * in sixteen bits, and the sensor recovers the address from them.
   */
  lemma AddressSplit(a: u16)
    requires a < 0x1000
    ensures AddressHigh(a) == a / 16
    ensures AddressHigh(a) * 0x100 + AddressLow(a) == a * 16
    ensures Shr(BigEndian(AddressHigh(a), AddressLow(a)), 4) == a
  {
    assert Pow2(4) == 16;
    var hi: nat, lo: nat := AddressHigh(a), AddressLow(a);
    assert hi * 0x100 + lo == 16 * (16 * (a / 16) + a % 16);
    DivModUnique(a * 16, 16, a, 0);
  }

  /** The switch on the unit code: a label for the five known codes, `None` otherwise. */
  function UnitForCode(code: u16): (name: Option<string>)
    ensures name.Some? <==> code in FlowUnitCodes
    ensures name.Some? ==> name.value in FlowUnits
  {
    match code
    case 2115 => Some(FlowUnits[0])
    case 2116 => Some(FlowUnits[1])
    case 2117 => Some(FlowUnits[2])
    case 2100 => Some(FlowUnits[3])
    case 2133 => Some(FlowUnits[4])
    case _ => None
  }

  /** Reference reading of the two unit tables: the label at the first index holding the code. */
  function TableLookup(codes: seq<u16>, labels: seq<string>, code: u16): (name: Option<string>)
    requires |codes| == |labels|
    ensures name.Some? <==> code in codes
    ensures name.Some? ==> name.value in labels
  {
    if codes == [] then None
    else if codes[0] == code then Some(labels[0])
    else TableLookup(codes[1..], labels[1..], code)
  }

  /** The switch agrees with the tables FLOW_UNIT_CODES and FLOW_UNIT on every code. */
  lemma UnitSwitchMatchesTables(code: u16)
    ensures UnitForCode(code) == TableLookup(FlowUnitCodes, FlowUnits, code)
  {
  }

  /** Code k of the table selects label k; a code outside the table selects nothing. */
  lemma UnitCodesSelectLabels(code: u16)
    ensures forall k :: 0 <= k < |FlowUnitCodes| ==>
      (UnitForCode(code) == Some(FlowUnits[k]) <==> code == FlowUnitCodes[k])
    ensures UnitForCode(code) == None <==> code !in FlowUnitCodes
  {
  }

  /**
   * `(int16_t) raw`: the two's-complement reading of a 16-bit word, the one
   * value in the signed 16-bit range congruent to it modulo 2^16.
   */
  function Int16(raw: u16): (v: int)
    ensures -0x8000 <= v < 0x8000
    ensures (v - raw) % 0x1_0000 == 0
    ensures v < 0 <==> raw >= 0x8000
  {
    if raw < 0x8000 then raw else raw - 0x1_0000
  }

  /** The sensor's encoding of a signed 16-bit value as a word. */
  function TwosComplement(v: int): (w: u16)
    requires -0x8000 <= v < 0x8000
    ensures (w - v) % 0x1_0000 == 0
  {
    v % 0x1_0000
  }

  lemma Int16RoundTrip(raw: u16)
    ensures TwosComplement(Int16(raw)) == raw
  {
  }

  lemma TwosComplementRoundTrip(v: int)
    requires -0x8000 <= v < 0x8000
    ensures Int16(TwosComplement(v)) == v
  {
  }
}
