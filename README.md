# Liquid flow sensor firmware, modelled in Dafny

This is a model of the Arduino firmware in `src/main.cpp`. The firmware reads a liquid-flow sensor
over I²C at bus address 0x40.

`setup()` runs a start-up loop. Each pass does the following:

- waits one second;
- soft-resets the sensor (command 0xFE) and waits 50 ms;
- reads the 16-bit user register (command 0xE3);
- takes bits 6..4 of that register (0..7) as the active calibration field; only fields 0..4 have
  an entry in the address table;
- sends the field's EEPROM address, left-aligned, after command 0xFA;
- reads six bytes: the scale factor, a CRC byte, the unit code, a CRC byte;
- maps the unit code to a label with a switch;
- switches the sensor to measurement mode (command 0xF1).

A refused write (a non-zero `endTransmission()` result) logs an error and `continue`s. That jumps to
the `while (ret != 0)` test, so the loop starts over. A short read also `continue`s, but `ret` was 0
at that point, so the loop ends.

`loop()` requests two bytes. It combines them most significant byte first and reinterprets the
result as `int16_t`. That value is to be divided by the scale factor.

The project is organised as follows:

- `bits.dfy` (module `Bits`): the types `uint8_t` and `uint16_t`, and C's `<<`, `>>`, `&`, `|`
  defined on non-negative integers, with lemmas giving their arithmetic meaning.
- `protocol.dfy` (module `Protocol`): the constants and tables of the firmware and the codecs:
  - big-endian word assembly;
  - the configuration index `(user_reg & 0x0070) >> 4`;
  - the two address bytes;
  - the unit switch;
  - the `int16_t` cast.
- `sequencer.dfy` (module `Sequencer`): one pass of the start-up loop, the whole loop and one
  `loop()` step, as functions of an explicit state. The state holds:
  - `scale_factor` and `unit`;
  - the injected bus outcomes;
  - the receive buffer;
  - the trace of observable events (delays, transmissions, requests, logged errors).
- `firmware.dfy` (module `Firmware`): the imperative firmware.
  - A class `Wire` stands for the bus library and answers from injected outcomes.
  - A class `FlowMeter` holds the globals.
  - Its methods `Setup` (the do-while), `RunPass` (one execution of the loop body) and `Loop` are
    each proved to reach exactly the state the matching function of `Sequencer` computes.
- `properties.dfy` (module `StartupProperties`): what the start-up loop and the measurement step
  guarantee:
  - how a pass ends;
  - retrying after a refused write;
  - exiting on a short read;
  - the complete event sequence of a clean start-up;
  - what becomes of `unit`;
  - concrete scenarios.
- `wrappers.dfy` (module `Wrappers`): `Option`.

The bus is a parameter of the model:

- every `endTransmission()` result comes from a sequence of codes;
- every `requestFrom()` delivers the next of a sequence of replies (truncated to the quantity
  requested).

When a start-up pass needs an outcome that is missing, the pass stops with the verdict `Starved`;
a measurement step with no reply left gives the sample `NoReply`. `Wire.Available` (`available()`)
is plumbing: the number of bytes left in the receive buffer. Delays and console
errors are recorded as trace events.

## Model

| member | source | states |
|---|---|---|
| Protocol.BigEndian | src/main.cpp:156-157 | `hi << 8` then `\|= lo` into a `uint16_t` is exactly `hi * 256 + lo` |
| Protocol.BigEndianRoundTrip | src/main.cpp:181-185 | the high byte (`w >> 8`) and low byte (`w & 0xFF`) of an assembled word are the two bytes it came from |
| Protocol.BigEndianSplit | src/main.cpp:255-256 | every 16-bit word is the big-endian assembly of its high and low bytes, so the two-byte encoding is lossless |
| Protocol.ConfigIndex | src/main.cpp:159-161 | `(user_reg & 0x0070) >> 4` equals bits 6..4 of the register, `(user_reg / 16) % 8`, and so is always below 8 |
| Protocol.FieldAddress | src/main.cpp:90-91 | the table lookup succeeds exactly for indices below 5 (the table's length), and every calibration address is 12 bits wide and ends in 0xB6 |
| Protocol.AddressHigh | src/main.cpp:167 | for a 12-bit address (every table entry is one) the truncation to `uint8_t` loses nothing: the first byte is the address's top eight bits, and with the low nibble it gives the address back |
| Protocol.AddressLow | src/main.cpp:168 | the second address byte, `(address << 12) >> 8` truncated to eight bits, is the low nibble of the address moved to the high nibble |
| Protocol.AddressSplit | src/main.cpp:166-168 | for a 12-bit address the two bytes are the address left-aligned in 16 bits, and shifting their big-endian value right by 4 gives back the address |
| Protocol.UnitForCode | src/main.cpp:188-207 | the switch selects a label exactly when the code is one of FLOW_UNIT_CODES, and the label is one of FLOW_UNIT |
| Protocol.TableLookup | src/main.cpp:93-95 | the lookup in the parallel code and label tables finds a label exactly when the code is in the code table, and the label is one of the table's labels |
| Protocol.UnitSwitchMatchesTables | src/main.cpp:188-207 | the switch on `unit_code` agrees on every code with looking the code up in FLOW_UNIT_CODES and taking the FLOW_UNIT label at the same position |
| Protocol.UnitCodesSelectLabels | src/main.cpp:188-207 | code k of FLOW_UNIT_CODES selects label k of FLOW_UNIT (both directions), and the default branch is taken exactly for codes outside the table |
| Protocol.Int16 | src/main.cpp:257 | `(int16_t) raw` lies in [-32768, 32767], is congruent to `raw` modulo 2^16, and is negative exactly when bit 15 is set |
| Protocol.TwosComplement | src/main.cpp:257 | encoding a signed 16-bit value as a word keeps it modulo 2^16 |
| Protocol.Int16RoundTrip | src/main.cpp:257 | re-encoding the signed reading of a word gives back the word |
| Protocol.TwosComplementRoundTrip | src/main.cpp:257 | the signed reading of the encoding of any signed 16-bit value is that value |
| Sequencer.Sent | src/main.cpp:133-135 | a write transaction fails to complete exactly when no result is left; otherwise it takes the first result, records the payload with it, and changes nothing else |
| Sequencer.Requested | src/main.cpp:151 | `requestFrom(n)` answers exactly when a reply is left, takes it off the front, and buffers its longest prefix of at most `n` bytes, recording how many arrived |
| Sequencer.Calibrated | src/main.cpp:181-207 | the scale factor is the first two bytes read most significant first, all six bytes are consumed, and the unit code in bytes 3 and 4 either sets `unit` to a FLOW_UNIT label silently (a code of the table) or leaves it and logs the code |
| Sequencer.MeasureStep | src/main.cpp:246-257 | no reply gives `NoReply`, a reply shorter than two bytes gives `ReadError`, and otherwise the sample is the `int16_t` reading of the reply's first two bytes with the current scale factor; the session is never changed |
| Sequencer.Attempt | src/main.cpp:129-228 | one pass only appends to the trace and uses up no more write results than it had; it begins with the 1000 ms delay and then the soft reset; a pass ending with a non-zero `ret` has used up at least one write result |
| Sequencer.ResetStage | src/main.cpp:132-140 | the soft-reset stage begins with the 0xFE transmission, only appends to the trace, and consumes a write result before any retry |
| Sequencer.ConfigStage | src/main.cpp:142-161 | the user-register stage only appends to the trace and consumes a write result before any retry |
| Sequencer.CalibrationStage | src/main.cpp:163-187 | the EEPROM stage only appends to the trace and consumes a write result before any retry |
| Sequencer.MeasureModeStage | src/main.cpp:222-228 | the measurement-mode stage only appends to the trace and consumes a write result before any retry |
| Sequencer.Startup | src/main.cpp:129-229 | the loop ends with `ret == 0` whenever it ends normally, only appends to the trace, and begins with the retry delay |
| Firmware.Wire.EndTransmission | src/main.cpp:135 | `endTransmission()` returns the next injected result and consumes it, leaving the replies and receive buffer alone |
| Firmware.Wire.RequestFrom | src/main.cpp:151 | `requestFrom(n)` replaces the receive buffer with at most `n` bytes of the next reply |
| Firmware.Wire.Read | src/main.cpp:156 | `read()` returns and removes the first buffered byte |
| Firmware.FlowMeter.constructor | src/main.cpp:96-97 | at power-on `scale_factor` is 0 and `unit` is the null pointer (zero-initialised globals), and nothing has happened yet |
| Firmware.FlowMeter.Delay | src/main.cpp:130 | `delay(ms)` records a delay of `ms` and changes nothing else |
| Firmware.FlowMeter.Log | src/main.cpp:137 | printing an error message records that error and changes nothing else |
| Firmware.FlowMeter.Send | src/main.cpp:133-135 | `beginTransmission`, the writes and `endTransmission` behave as `Sequencer.Sent` |
| Firmware.FlowMeter.Request | src/main.cpp:151 | `requestFrom` behaves as `Sequencer.Requested` |
| Firmware.FlowMeter.ReadCalibration | src/main.cpp:181-207 | reading the six calibration bytes and switching on the unit code leaves the state `Sequencer.Calibrated` computes: scale factor set, CRC bytes consumed, unit set or the unmapped code logged |
| Firmware.FlowMeter.RunPass | src/main.cpp:130-228 | one execution of the do-while body reaches the state and verdict `Sequencer.Attempt` computes |
| Firmware.FlowMeter.Setup | src/main.cpp:129-229 | the do-while loop of `setup()` reaches the state and verdict `Sequencer.Startup` computes |
| Firmware.FlowMeter.Loop | src/main.cpp:246-257 | one call of `loop()` reaches the state and sample `Sequencer.MeasureStep` computes |
| StartupProperties.MeasureModeStageEnds | src/main.cpp:222-228 | a non-zero `ret` leaves a refused 0xF1 and the measurement-mode error as the last two events, `ret == 0` leaves the acknowledged 0xF1 as the last event, the stage stops `Starved` exactly when no write result is left, and `unit` is kept in the table |
| StartupProperties.CalibratedKeepsUnit | src/main.cpp:188-207 | storing the calibration keeps `unit` among the FLOW_UNIT labels and never unsets it |
| StartupProperties.CalibrationStageEnds | src/main.cpp:163-228 | from the EEPROM stage on, a pass ends in a refused write of one of the commands followed by the error the firmware logs for that command, or with `ret == 0` after an exit event, and keeps `unit` in the table |
| StartupProperties.ConfigStageEnds | src/main.cpp:142-228 | the same from the user-register stage on |
| StartupProperties.ResetStageEnds | src/main.cpp:132-228 | the same from the soft reset on |
| StartupProperties.AttemptEnds | src/main.cpp:129-228 | the same for a whole pass |
| StartupProperties.FailedWriteEndsPass | src/main.cpp:136-139 | a pass ends with a non-zero `ret` only after a refused write: its last two events are that write, answered with that code, and the error the firmware logs for that command (0xFE: soft reset, 0xE3: register mode, 0xFA: EEPROM address, 0xF1: measurement mode) |
| StartupProperties.CleanPassEndsWithExitEvent | src/main.cpp:152-155 | a pass that leaves `ret == 0` ends with the acknowledged measurement command or with a short read logged |
| StartupProperties.StartupEndsWithExitEvent | src/main.cpp:229 | the loop, however many passes it takes, only ever leaves through one of those exit events |
| StartupProperties.ResetFailureRestarts | src/main.cpp:130-139 | a refused soft reset logs its error and ends the pass without reading the register; the loop then continues from that state, with another delay and soft reset |
| StartupProperties.SoftResetRefused | src/main.cpp:133-139 | a refused 0xFE logs the soft-reset error and ends the pass with the bus's code |
| StartupProperties.RegisterModeRefused | src/main.cpp:143-149 | a refused 0xE3 logs the register-mode error and ends the pass with the bus's code, before any read |
| StartupProperties.EepromAddressRefused | src/main.cpp:164-173 | a refused EEPROM address write logs its error and ends the pass with the bus's code, before any read |
| StartupProperties.MeasureModeRefused | src/main.cpp:223-229 | a refused 0xF1 logs the measurement-mode error and ends the pass with the bus's code |
| StartupProperties.RegisterModeRefusedRestarts | src/main.cpp:129-149 | after an acknowledged soft reset, a refused 0xE3 ends the pass with its code and its exact events, and the loop starts over from that state |
| StartupProperties.EepromAddressRefusedRestarts | src/main.cpp:129-173 | after a complete register read, a refused EEPROM address write ends the pass with its code and its exact events, and the loop starts over from that state |
| StartupProperties.MeasureModeRefusedRestarts | src/main.cpp:129-229 | after a complete calibration read, a refused 0xF1 ends the pass with its code; the loop starts over from a state that keeps the scale factor and unit just stored |
| StartupProperties.CalibrationStored | src/main.cpp:181-207 | storing six calibration bytes sets the big-endian scale factor, sets `unit` only for a mapped code, logs an unmapped code and skips both CRC bytes |
| StartupProperties.AttemptConsumesInOrder | src/main.cpp:129-228 | a pass takes write results and replies only from the front of what is left, in order |
| StartupProperties.StartupConsumesInOrder | src/main.cpp:129-229 | so does the whole loop, however many passes it takes |
| StartupProperties.RetryBeginsWithDelay | src/main.cpp:129-130 | after any refused write the loop runs another pass, which begins with the one-second delay |
| StartupProperties.StartupStops | src/main.cpp:229 | a pass whose verdict is not a non-zero `ret` is the last one |
| StartupProperties.ResetAcknowledged | src/main.cpp:130-140 | an acknowledged soft reset records the retry delay, the 0xFE transmission and the 50 ms settle delay, and hands over to the register stage |
| StartupProperties.IndexOutOfRangeStops | src/main.cpp:159-161 | a register whose bits 6..4 are 5, 6 or 7 ends the pass, and the loop, with `IndexOutOfRange` right after the register read: no EEPROM address is sent |
| StartupProperties.RegisterAcknowledged | src/main.cpp:142-161 | after the acknowledged 0xE3 and a full register reply, the selected address is the table entry for bits 6..4 of the reply, and exactly the write and the two-byte request are recorded |
| StartupProperties.EepromAddressAcknowledged | src/main.cpp:164-180 | after the acknowledged EEPROM address write, the transmission carries 0xFA and the two address bytes, at most six reply bytes are buffered, and a short reply ends the pass with `ret == 0` |
| StartupProperties.CalibrationRead | src/main.cpp:164-180 | with a full six-byte reply the EEPROM stage proceeds to the calibration step with exactly those bytes buffered |
| StartupProperties.CalibrationAccepted | src/main.cpp:181-228 | the calibration step stores the big-endian scale factor, sets `unit` only for a mapped code, skips both CRC bytes and, with 0xF1 acknowledged, ends the pass with `ret == 0` |
| StartupProperties.ShortRegisterReadExits | src/main.cpp:151-155 | a register reply shorter than two bytes logs the error and ends the whole loop with `ret == 0` without reading the EEPROM: calibration never happens |
| StartupProperties.ShortRegisterReadPass | src/main.cpp:151-155 | the pass that ends this way, with its exact events |
| StartupProperties.ShortEepromReadExits | src/main.cpp:176-180 | an EEPROM reply shorter than six bytes logs the error and ends the whole loop with `ret == 0`, leaving `scale_factor` and `unit` as they were |
| StartupProperties.ShortEepromReadPass | src/main.cpp:176-180 | the pass that ends this way, with its exact events |
| StartupProperties.CleanStartup | src/main.cpp:129-229 | with every write acknowledged and full replies, start-up takes one pass, stores the scale factor and mapped unit, consumes four write results and two replies, and records exactly the expected events |
| StartupProperties.CleanPass | src/main.cpp:130-228 | the single pass of such a start-up, with the same outcome |
| StartupProperties.StartupKeepsUnitInTable | src/main.cpp:188-207 | whatever the bus does, `unit` after start-up is unset or one of the five FLOW_UNIT labels |
| StartupProperties.StartupNeverUnsetsUnit | src/main.cpp:204-206 | an unmapped unit code never clears a `unit` already set |
| StartupProperties.UnmappedUnitScenario | src/main.cpp:204-206 | register 0x0030 selects field 3 (address 0xBB6, sent as 0xBB 0x60); calibration bytes 03 E8 and 08 3C give scale 1000 and the unmapped code 2108, which is logged and leaves `unit` unchanged, while start-up still succeeds |
| StartupProperties.RetryScenario | src/main.cpp:129-229 | a soft reset refused with code 2 is retried after another one-second delay; the second pass selects field 0 (0x2B6, sent as 0x2B 0x60), scale 10 and code 2116 ("ul/min") |
| StartupProperties.ResetFailureThenClean | src/main.cpp:129-229 | a refused soft reset followed by a clean pass yields the clean pass's outcome after the three events of the failed pass |
| StartupProperties.MeasureKeepsSession | src/main.cpp:246-257 | a measurement step never changes `scale_factor`, `unit` or the write results, and only appends to the trace |
| StartupProperties.MeasureShortRead | src/main.cpp:246-253 | a flow reply shorter than two bytes logs the read error and yields no reading |
| StartupProperties.MeasureReadsTwoBytes | src/main.cpp:246-257 | a reply of two or more bytes yields the `int16_t` reading of its first two bytes, most significant first, paired with the current scale factor; the CRC byte is never requested |
| StartupProperties.NegativeFlowExample | src/main.cpp:255-257 | the bytes 0xFF 0x9C read as the signed value -100 |

## Left out

- The SerLCD display (`lcd.*`, custom characters, the backlight): output only, with no effect on
  the sensor protocol.
- Serial output: console messages are `ErrorLogged` trace events, one per error message. The
  verbose calibration dump (`VERBOSE_OUTPUT`), the greeting and `Serial.begin` are not modelled.
- The internals of the Wire library: bus outcomes are injected sequences. `beginTransmission` and
  the `write` calls of one transaction are one `Transmit` event carrying the payload.
- Real time: `delay(ms)` is a `Delay(ms)` trace event. The `delay(1000)` after the loop
  (src/main.cpp:236) belongs to the LCD greeting and is not modelled: `Setup` ends at the loop test.
- The bus address 0x40 (src/main.cpp:88): every transaction goes to this one sensor, so the events
  do not record it.
- Sequencer.Startup: the model stops with `Starved` when the injected outcomes run out. The real loop can go
  on retrying forever. This is also how termination is shown.
- Sequencer.ConfigStage: a configuration index of 5 to 7 reads past the end of the five-entry
  `SCALE_FACTOR_ADDRESSES` array in C (undefined behaviour). The model stops that pass with the
  verdict `IndexOutOfRange` instead of inventing an address (`IndexOutOfRangeStops`).
- Firmware.Wire.Read: `Wire.read()` returning -1 on an empty buffer is not modelled. Every read in
  the firmware is guarded by an `available()` check, so it cannot happen.
- CRC checking: the firmware reads the two CRC bytes of the calibration reply and never checks
  them. The model consumes them the same way. The CRC byte of a flow reading is never requested.
- The `UNIT_ADDRESSES` table, the SdFat objects and the other globals the core does not use.
- Firmware.FlowMeter.Loop: the float division `(int16_t) raw / (float) scale_factor`, the
  `sprintf` formatting and the `lcd.print` calls are not modelled. The sample keeps the exact pair
  (signed reading, scale factor).
- Firmware.FlowMeter.Loop: on a short read the C code goes on to print the uninitialised local
  `sensor_reading` and the global `buffer` (empty on the first call, the text of the previous
  sample after that). The model returns `ReadError`. A `requestFrom` with no reply left
  is `NoReply`.
- The Arduino runtime, which calls `loop()` forever after `setup()`: `Loop` models one call.
- Firmware.FlowMeter.RunPass: each `continue` of the C loop body is a `return` of the current
  `ret` from `RunPass`, and `Setup` loops while that value is non-zero. The control flow is the
  same.
