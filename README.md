# BMS-ZRE22 battery-monitor command layer and vehicle-bus reporting, in Dafny

This project models two parts of the firmware of the ZRE22 battery-management
controller.

**The command layer of the LTC6813 monitor-chip daisy chain** (`LTC_cmds.c`).
Each command is a 4-byte frame: two opcode bytes, then their 15-bit checksum,
high byte first. The opcodes come from the command-bit table of the LTC6813
datasheet (table 37) and from the register-group selector.

- The two start-conversion commands and the open-wire check send only a
  frame. The status poll sends its frame and then clocks out `DUMMY` bytes
  until the chain answers with a non-zero byte.
- The register reads take 8 bytes per chip, 6 payload bytes and 2 checksum
  bytes. Each passing payload is decoded into three little-endian 16-bit values.
- The cell-voltage read also runs a missing-measurement counter per chip.
  Failure adds one, success clears it, and five failures zero the chip's values.
  Each chip's outcome is reported to the fault subsystem.
- The configuration write sends its payload and one checksum. The
  configuration read stores what comes back, unchecked.

The model has these parts:

- `LtcUtilities`: machine types and constants.
- `LtcFrames`: frames and opcodes.
- `LtcRegisters`: what a register read means, as pure functions and lemmas over
  the received bytes.
- `Spi` and `FaultHandler`: the serial bus and the fault subsystem, as logs.
- `LtcCmds.Chain`: the C functions as methods over the `cmd[4]` array, the bus
  and the caller's arrays. Each method is proved equal to the pure definitions.

**The vehicle-bus driver** (`can_driver.c`).

- Cell voltages and pack temperatures go out four values per 8-byte frame.
  Each value is sent high byte first, on consecutive identifiers.
- A 7-byte status frame carries the state of charge, two current-sensor
  readings and the fault codes. Each 16-bit field is sent low byte first.
- After every transmit request, LED2 shows whether the request succeeded.
- This part is module `CanDriver`.

The two checksum routines `pec15_calc` and `verify_pec` are uninterpreted
functions. Lemmas that need them to agree take the explicit precondition
`PecConsistent`: a checksum pair verifies exactly when it is the high-first
encoding of the checksum of the six payload bytes. Nothing outside those lemmas
relies on it.

Two facts about the code that the model follows:

- `wrcfga` computes the checksum it sends over the first six payload bytes
  only, not over the whole `6*N`-byte payload (`LTC_cmds.c:291`).
- `poll_adc_status` does not wake the chain before sending its command
  (`LTC_cmds.c:70-81`); every other operation does.

## Model

| member | source | states |
|---|---|---|
| `LtcUtilities.BeBytes` | BMS22.X/LTC/LTC_cmds/LTC_cmds.c:139-141 | the two bytes `(uint8_t)(x >> 8), (uint8_t)x` read back high byte first give x |
| `LtcUtilities.Inc8` | BMS22.X/LTC/LTC_cmds/LTC_cmds.c:165 | `++` on a `uint8_t` counter: the result is one more than the counter modulo 256, so 255 wraps to 0 |
| `LtcUtilities.Le16` | BMS22.X/LTC/LTC_cmds/LTC_cmds.c:156-158 | `(hi << 8) + lo` as a 16-bit value: its low byte is `lo` and its high byte is `hi` |
| `LtcFrames.CommandFrame` | BMS22.X/LTC/LTC_cmds/LTC_cmds.c:39-41 | a frame has 4 bytes: the two opcode bytes, then the checksum high byte first |
| `LtcFrames.AdcvOpcode` | BMS22.X/LTC/LTC_cmds/LTC_cmds.c:37-38 | with MD=0b10, DCP=0 and CH=0, the bit-field expression gives ADCV = `[0x03, 0x60]` |
| `LtcFrames.AdaxOpcode` | BMS22.X/LTC/LTC_cmds/LTC_cmds.c:56-57 | with CHG=0, ADAX = `[0x05, 0x60]` |
| `LtcFrames.PladcOpcode` | BMS22.X/LTC/LTC_cmds/LTC_cmds.c:73-74 | PLADC is two bytes whose byte 0 is non-zero, unlike every register command; it is neither ADCV, ADAX nor ADOW for any pull direction |
| `LtcFrames.AdowOpcode` | BMS22.X/LTC/LTC_cmds/LTC_cmds.c:253-254 | ADOW = `[0x03, 0x28 + 0x40*(pull_dir mod 4)]`: after the shift into bit 6 and the byte truncation, only two bits of the direction remain |
| `LtcFrames.AdowDirectionsDifferInBit6` | BMS22.X/LTC/LTC_cmds/LTC_cmds.c:20-21 | the PUP and PDN open-wire frames have the same byte 0, and their byte 1 differs exactly in bit 6 |
| `LtcFrames.RdcvOpcode` | BMS22.X/LTC/LTC_cmds/LTC_cmds.c:101-137 | byte 0 is always 0x00; byte 1 is non-zero exactly for the selectors ADCVA..ADCVF; any other selector gives `[0x00, 0x00]` |
| `LtcFrames.RdcvOpcodesDistinct` | BMS22.X/LTC/LTC_cmds/LTC_cmds.c:103-132 | the six voltage groups have six different read commands (0x04, 0x06, 0x08, 0x0A, 0x09, 0x0B) |
| `LtcFrames.RdauxOpcode` | BMS22.X/LTC/LTC_cmds/LTC_cmds.c:189-215 | byte 0 is 0x00; byte 1 is non-zero exactly for the four auxiliary selectors; any other selector gives `[0x00, 0x00]` |
| `LtcFrames.RdauxOpcodesDistinct` | BMS22.X/LTC/LTC_cmds/LTC_cmds.c:191-210 | with distinct selectors, the four auxiliary commands differ from each other and from every voltage read command |
| `LtcRegisters.BlockPassesExactly` | BMS22.X/LTC/LTC_cmds/LTC_cmds.c:154 | a chip's block (`BlockPasses`, the `verify_pec` test of bytes `8i..8i+5` against `8i+6..8i+7`) passes, under the checksum assumption, exactly when its two checksum bytes are the payload's checksum high byte first |
| `LtcRegisters.BlockReadingBytes` | BMS22.X/LTC/LTC_cmds/LTC_cmds.c:156-158 | the three values decoded from a block (`BlockReading`), sent again low byte first, are the block's six payload bytes |
| `LtcRegisters.Track` | BMS22.X/LTC/LTC_cmds/LTC_cmds.c:154-175 | one read of one chip: a pass stores the reading and clears the counter; a failure below four counts up and keeps the values; a failure that reaches five zeroes the values and clears the counter; the 8-bit wrap from 255 gives 0; a counter below five stays below five |
| `LtcRegisters.FailuresCountUp` | BMS22.X/LTC/LTC_cmds/LTC_cmds.c:163-167 | failures that keep the counter below five only count up and never change the chip's values |
| `LtcRegisters.StaleAfterFiveFailures` | BMS22.X/LTC/LTC_cmds/LTC_cmds.c:169-175 | five failures in a row from a clear counter give zeroed values and a clear counter; a sixth failure counts from one again |
| `LtcRegisters.RecoveryAfterFailures` | BMS22.X/LTC/LTC_cmds/LTC_cmds.c:154-159 | a pass after one to four failures stores the new reading and leaves no trace of the failures |
| `LtcRegisters.TrackRunSplit` | BMS22.X/LTC/LTC_cmds/LTC_cmds.c:152-176 | running the counter over two series of reads is running it over the first, then the second |
| `LtcRegisters.TrackRunBelowThreshold` | BMS22.X/LTC/LTC_cmds/LTC_cmds.c:169-175 | a counter below five stays below five over any series of reads |
| `LtcRegisters.FaultId` | BMS22.X/LTC/LTC_cmds/LTC_cmds.c:160-166 | the section id passed to the fault subsystem is `which_reg + i*6` modulo 256, the `uint8_t` parameter's value |
| `LtcRegisters.IcCall` | BMS22.X/LTC/LTC_cmds/LTC_cmds.c:154-167 | chip i's fault call is a reset exactly when its block passes (an increment otherwise), for section `FaultId(which_reg, i)` |
| `LtcRegisters.RdcvCalls` | BMS22.X/LTC/LTC_cmds/LTC_cmds.c:151-176 | the calls of a read of N chips, one per chip in chain order, each `IcCall` (its contract gives their number; `RdcvChip` states each call) |
| `LtcRegisters.RdcvOutcome` | BMS22.X/LTC/LTC_cmds/LTC_cmds.c:154-175 | chip i's (counter, values) after its read: on a pass (0, the decoded values); on a failure below four, the counter plus one and the old values; from four to 254, (0, zeros); at 255, the wrap to 0 with the old values |
| `LtcRegisters.RdcvIc` | BMS22.X/LTC/LTC_cmds/LTC_cmds.c:154-175 | one pass of the chip loop on the caller's buffer and counter array; both keep their lengths (`RdcvIcAt` and `RdcvIcOutside` state what it writes) |
| `LtcRegisters.RdcvIcAt` | BMS22.X/LTC/LTC_cmds/LTC_cmds.c:154-175 | one pass of the chip loop stores `RdcvOutcome` in chip i's three entries and its counter slot `6*i` |
| `LtcRegisters.RdcvIcOutside` | BMS22.X/LTC/LTC_cmds/LTC_cmds.c:156-158 | one pass of the chip loop writes no buffer entry outside chip i's three |
| `LtcRegisters.RdcvUpTo` | BMS22.X/LTC/LTC_cmds/LTC_cmds.c:151-176 | the voltage read of chips 0..N-1: chip i's `RdcvIc` step applied in chain order; buffer and counter array keep their lengths (what each chip ends up with is `RdcvChip`) |
| `LtcRegisters.RdcvBufUntouched` | BMS22.X/LTC/LTC_cmds/LTC_cmds.c:156-158 | a voltage read writes no buffer entry outside the three entries `CELLS_PER_IC*i + 0..2` of the chips read |
| `LtcRegisters.RdcvCountersUntouched` | BMS22.X/LTC/LTC_cmds/LTC_cmds.c:159-174 | a voltage read writes no counter index other than the slots `6*i` |
| `LtcRegisters.RdcvChip` | BMS22.X/LTC/LTC_cmds/LTC_cmds.c:151-176 | chip by chip over the whole read: on a pass, the decoded values are stored, the counter at `6*i` is cleared and a reset for section `which_reg + 6*i` is logged; on a failure, an increment for that section is logged and the counter and values follow the counter rule, including the wrap from 255 to 0 that keeps the values; exactly one fault call per chip |
| `LtcRegisters.RdcvCountersStayBelow` | BMS22.X/LTC/LTC_cmds/LTC_cmds.c:163-175 | if every chip's counter is below five before a read, every one is below five after it |
| `LtcRegisters.RdauxIc` | BMS22.X/LTC/LTC_cmds/LTC_cmds.c:232-238 | one pass of the auxiliary chip loop: a passing block's decoded values go into chip i's three entries; a failing block changes nothing |
| `LtcRegisters.RdauxUpTo` | BMS22.X/LTC/LTC_cmds/LTC_cmds.c:229-239 | the auxiliary read of chips 0..N-1, `RdauxIc` in chain order; the buffer keeps its length (what each chip ends up with is `RdauxChip`) |
| `LtcRegisters.RdauxUpToUntouched` | BMS22.X/LTC/LTC_cmds/LTC_cmds.c:234-236 | an auxiliary read writes no buffer entry outside the chips' three entries |
| `LtcRegisters.RdauxChip` | BMS22.X/LTC/LTC_cmds/LTC_cmds.c:229-239 | after an auxiliary read, a chip's three entries hold its decoded values if its checksum passed and their old values otherwise |
| `LtcRegisters.ResponseDecodes` | BMS22.X/LTC/LTC_cmds/LTC_cmds.c:154-158 | under the checksum assumption, every block of a response with correct checksums passes, and decodes to the values the chip sent low byte first |
| `LtcRegisters.RdcvOfGoodResponse` | BMS22.X/LTC/LTC_cmds/LTC_cmds.c:152-160 | under the checksum assumption, a voltage read of a response with correct checksums stores each chip's values, clears its counter, and logs a reset for its section |
| `LtcRegisters.GroupAExample` | BMS22.X/LTC/LTC_cmds/LTC_cmds.c:154-166 | one chip, group A, payload `E8 03 D0 07 B8 0B`: with the right checksum, 1000/2000/3000 are stored and `[reset(0)]` is logged; with any other checksum pair and a counter below four, the buffer is unchanged, the counter goes up by one and `[increment(0)]` is logged |
| `FaultHandler.FaultLog.IncrementMissingVoltageMeasurementFault` | BMS22.X/fault_handler.h:28 | the call is appended to the fault log |
| `FaultHandler.FaultLog.ResetMissingVoltageMeasurementFault` | BMS22.X/fault_handler.h:29 | the call is appended to the fault log |
| `LtcCmds.Chain.BuildCommand` | BMS22.X/LTC/LTC_cmds/LTC_cmds.c:139-141 | `cmd` holds the opcode and then `cmd_pec = pec15_calc(cmd, 2)`, high byte first |
| `LtcCmds.Chain.StartCellVoltageAdcConversion` | BMS22.X/LTC/LTC_cmds/LTC_cmds.c:32-46 | the bus sees wake, CS low, the first `CMD_SIZE_BYTES` bytes of the ADCV frame, CS high; `cmd` holds the command's frame and `cmd_pec` its checksum |
| `LtcCmds.Chain.StartTemperatureAdcConversion` | BMS22.X/LTC/LTC_cmds/LTC_cmds.c:51-65 | the same order for the ADAX frame; `cmd` holds the command's frame and `cmd_pec` its checksum |
| `LtcCmds.Chain.PollAdcStatus` | BMS22.X/LTC/LTC_cmds/LTC_cmds.c:70-92 | no wake; CS low, the PLADC frame, then one DUMMY byte per byte received until the first non-zero byte after the frame arrives (all bytes before it were zero); then CS high; `cmd` holds the command's frame and `cmd_pec` its checksum |
| `LtcCmds.Chain.AwaitConversion` | BMS22.X/LTC/LTC_cmds/LTC_cmds.c:83-90 | DUMMY bytes are clocked out one at a time until the first non-zero byte comes back; every byte before it was zero and the log holds one DUMMY transfer per byte |
| `LtcCmds.Chain.RdcvRegister` | BMS22.X/LTC/LTC_cmds/LTC_cmds.c:97-180 | bus order wake, CS low, RDCV frame, `8*NUM_ICS` clocked bytes, CS high; the buffer and counters end up as the pure voltage read of the received bytes; the fault log grows by that read's calls; `cmd` holds the command's frame and `cmd_pec` its checksum |
| `LtcCmds.Chain.DecodeVoltages` | BMS22.X/LTC/LTC_cmds/LTC_cmds.c:151-176 | the chip loop leaves buffer and counters equal to the pure voltage read, and appends the read's fault calls in chain order |
| `LtcCmds.Chain.DecodeChip` | BMS22.X/LTC/LTC_cmds/LTC_cmds.c:154-175 | one loop pass is one step of the pure voltage read, and makes one fault call |
| `LtcCmds.Chain.RdauxRegister` | BMS22.X/LTC/LTC_cmds/LTC_cmds.c:185-243 | bus order wake, CS low, RDAUX frame, `8*NUM_ICS` clocked bytes, CS high; the buffer ends up as the pure auxiliary read; no fault call; `cmd` holds the command's frame and `cmd_pec` its checksum |
| `LtcCmds.Chain.DecodeAux` | BMS22.X/LTC/LTC_cmds/LTC_cmds.c:229-239 | the chip loop leaves the buffer equal to the pure auxiliary read |
| `LtcCmds.Chain.OpenWireCheck` | BMS22.X/LTC/LTC_cmds/LTC_cmds.c:248-262 | the bus sees wake, CS low, the ADOW frame for the direction, CS high; `cmd` holds the command's frame and `cmd_pec` its checksum |
| `LtcCmds.Chain.Rdcfga` | BMS22.X/LTC/LTC_cmds/LTC_cmds.c:264-278 | the first `6*NUM_ICS` bytes of the caller's buffer are the bytes received after the frame, unchecked; the rest of the buffer is unchanged; `cmd` holds the command's frame and `cmd_pec` its checksum |
| `LtcCmds.Chain.Wrcfga` | BMS22.X/LTC/LTC_cmds/LTC_cmds.c:280-298 | the bus sees the frame, then the `6*NUM_ICS` payload bytes, then the checksum of the first 6 payload bytes, high byte first; `cmd` holds the command's frame and `cmd_pec` its checksum |
| `CanDriver.MessageCount` | BMS22.X/can_driver.c:41 | the `uint8_t` frame count `(n + 4 - n%4)/4`: below 1020 values, `4*(count-1) <= n < 4*count`: the frames hold all n values, with a whole spare frame when n is a multiple of four |
| `CanDriver.MessageCountFormula` | BMS22.X/can_driver.c:41 | below 1020 values, the count `(n + 4 - n%4)/4` is `n/4 + 1`: one frame more than needed exactly when n is a multiple of four; the frames always cover all n values |
| `CanDriver.MessageCountWraps` | BMS22.X/can_driver.c:53 | the `uint8_t` count wraps: 1020 sensors would give no frame at all |
| `CanDriver.CellMessageCount` | BMS22.X/can_driver.c:41-45 | 18 cells give 5 frames, so 20 entries are read |
| `CanDriver.PackValues` | BMS22.X/can_driver.c:99-102 | the data bytes of a value frame, each value high byte first in value order: two bytes per value (the placement is `PackValuesAt`) |
| `CanDriver.PackValuesAt` | BMS22.X/can_driver.c:99-102 | value k of a frame is `(b[2k] << 8) + b[2k+1]` |
| `CanDriver.PackFour` | BMS22.X/can_driver.c:129-132 | the packing of four values is the 8 bytes `(uint8_t)(v >> 8), (uint8_t)(v & 0xFF)` in value order |
| `CanDriver.UnpackPack` | BMS22.X/can_driver.c:99-102 | a receiver reading the frame high byte first gets every value back |
| `CanDriver.PackUnpack` | BMS22.X/can_driver.c:130-132 | every byte sequence of even length is the packing of what it reads as |
| `CanDriver.ValueMessage` | BMS22.X/can_driver.c:104-114 | a value frame has the given identifier and DLC 8 with 8 data bytes |
| `CanDriver.ValueMessages` | BMS22.X/can_driver.c:42-45 | `count` frames; frame i has identifier `(uint16_t)(base + i)`, DLC 8 and the packing of values `4i..4i+3` |
| `CanDriver.ValueLocation` | BMS22.X/can_driver.c:42-45 | value `4i + r` travels in frame i, with identifier `(uint16_t)(base + i)`, DLC 8, at data bytes 2r and 2r+1 |
| `CanDriver.StatusData` | BMS22.X/can_driver.c:69-72 | 7 bytes: soc, cs_hi and cs_lo each read back low byte first (the current readings as two's complement), then the fault codes |
| `CanDriver.SignedLowFirst` | BMS22.X/can_driver.c:70-71 | `(uint8_t)(x & 0xFF), (uint8_t)(x >> 8)` of a negative `int16_t`, with an arithmetic shift, reads back as x |
| `CanDriver.StatusOrderOpposite` | BMS22.X/can_driver.c:69-71 | each of the three 16-bit status fields (soc, and cs_hi and cs_lo as their 16-bit two's-complement patterns) goes out as the reverse of its high-first encoding, the opposite byte order from the value frames |
| `CanDriver.Driver.TransmitAndShow` | BMS22.X/can_driver.c:86-94 | the frame is handed to the transmit routine; LED2 is high exactly when the routine answered success |
| `CanDriver.Driver.SendValueMessage` | BMS22.X/can_driver.c:97-125 | one 8-byte, DLC-8 frame with the given identifier; LED2 follows its result (`send_pack_temperature_message` at lines 127-155 has the same body) |
| `CanDriver.Driver.ReportValues` | BMS22.X/can_driver.c:42-46 | the frames for the value count, in order, on consecutive identifiers; LED2 shows the last request's result, or is unchanged when no frame is sent |
| `CanDriver.Driver.ReportCellVoltages` | BMS22.X/can_driver.c:38-47 | five cell-voltage frames from `CAN_ID_CELL_VOLTAGES`; LED2 shows the fifth request's result |
| `CanDriver.Driver.ReportPackTemperatures` | BMS22.X/can_driver.c:50-59 | the same rule for `NUM_TEMP_SENSORS` values from `CAN_ID_PACK_TEMPERATURE` |
| `CanDriver.Driver.ReportStatus` | BMS22.X/can_driver.c:62-95 | one DLC-7 frame with identifier `CAN_ID_STATUS` carrying the status bytes; LED2 follows its result |

## Left out

- Serial-bus hardware. `SPI1_Exchange8bitBuffer`, `SPI1_Exchange8bit`, the chip-select pins, `__delay_us` and `LED6_Toggle` are hardware I/O and timing. The bus is a log of events plus the stream of bytes the chain drives on MISO.
- The body of `wakeup_daisychain` is not part of this model. It is one `WakeChain` event.
- The checksum routines. The bodies of `pec15_calc`, `verify_pec` and `init_PEC15_Table` are not part of this model. The CRC-15 algorithm is not reconstructed.
- Bytes clocked out from `dummy_buf`. The register reads send `8*NUM_ICS` bytes and `rdcfga` sends `6*NUM_ICS` bytes from this 4-byte array, an overread. Those bytes are logged as unspecified (`Clocked(n)`).
- `LtcCmds.Chain.Wrcfga`: the source receives the `6*NUM_ICS` bytes that come back during the payload transfer into the 4-byte `dummy_buf` (`LTC_cmds.c:295`), writing past its end (two bytes with one chip). The model drops the received bytes, so it does not capture that write or its undefined effect on the globals next to `dummy_buf`.
- Internals of the fault subsystem: only the calls are recorded.
- The CAN peripheral layer. `can_initialize` and the internals of `CAN1_Transmit` are not modelled. The transmit answers are an input stream. The state-of-charge, current-sensor and fault-code getters are parameters.
- The frame fields `idType` (standard), `frameType` (data) and the medium priority are the same in every frame; `CanMsg` does not carry them.
- `CELL_VOLTAGE_MAX`/`MIN` are floating-point constants not used by the core.
- `CELLS_PER_IC`, `CMD_SIZE_BYTES`, `AUXA`..`AUXD`, `NUM_TEMP_SENSORS` and the `CAN_ID_*` values are defined outside the source files of this model. They are parameters.
- `LtcCmds.Chain.PollAdcStatus` and `LtcCmds.Chain.AwaitConversion`: the source may wait forever. Both require that a non-zero byte eventually arrives, so they do not capture the unbounded stall.
- `LtcCmds.Chain.Valid` requires `CMD_SIZE_BYTES <= 4`, since `cmd` has four bytes, and a chain of at most 255 chips, since the loop counter is a `uint8_t`.
- `LtcRegisters.RdcvChip`, `RdcvCountersStayBelow`, `RdauxChip` and `RdcvOfGoodResponse` require `CELLS_PER_IC >= 3`, so that chips' entries do not overlap. With overlapping entries a later chip overwrites an earlier one; the whole-read methods state that case exactly through `RdcvUpTo`/`RdauxUpTo`.
- Writes beyond the caller's arrays are not modelled. The methods require the caller's buffer, counter array and value arrays to hold every index the source writes or reads.
