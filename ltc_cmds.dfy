/** The command layer of the battery-monitor daisy chain. Its C original keeps
    the command frame in the global `cmd[4]` and its checksum in `cmd_pec`;
    here they are the fields of one `Chain` object, which also holds the bus,
    the fault subsystem, the two checksum routines and the chain's geometry.
    Every method is proved against the pure definitions of LtcFrames and
    LtcRegisters. */
module LtcCmds {
  import opened LtcUtilities
  import opened Spi
  import opened FaultHandler
  import opened LtcFrames
  import opened LtcRegisters

  /** No byte is non-zero before position `at`, from `from` on, and the byte at `at` is. */
  ghost predicate FirstNonZero(miso: nat -> byte, from: nat, at: nat) {
    from <= at && miso(at) != 0 && forall j :: from <= j < at ==> miso(j) == 0
  }

  class Chain {
    /** `cmd[4]`: the last command frame built. */
    const cmd: array<byte>
    /** `cmd_pec`: the checksum of the last command's opcode. */
    var cmdPec: uint16

    const bus: SpiBus
    const faults: FaultLog
    /** `pec15_calc` and `verify_pec`. */
    const pec15: PecCalc
    const verifyPec: PecVerify

    /** `NUM_ICS`, `CELLS_PER_IC`, `CMD_SIZE_BYTES` and the AUXA..AUXD selectors.
        `NUM_ICS` is 1 in the configured chain, and a pending change raises it
        to 5, so the chain length is a parameter here. */
    const numIcs: nat
    const cellsPerIc: nat
    const cmdSizeBytes: nat
    const aux: AuxSelectors

    /** At least one chip and at most 255 (the chip loops count with a byte);
        the command exchange sends at most the four bytes `cmd` holds. */
    ghost predicate Valid()
      reads this
    {
      cmd.Length == 4 && 1 <= numIcs <= 0xFF && cmdSizeBytes <= 4
    }

    constructor (bus: SpiBus, faults: FaultLog, pec15: PecCalc, verifyPec: PecVerify,
                 numIcs: nat, cellsPerIc: nat, cmdSizeBytes: nat, aux: AuxSelectors)
      requires 1 <= numIcs <= 0xFF && cmdSizeBytes <= 4
      ensures Valid() && fresh(cmd) && cmdPec == 0
      ensures this.bus == bus && this.faults == faults
      ensures this.pec15 == pec15 && this.verifyPec == verifyPec
      ensures this.numIcs == numIcs && this.cellsPerIc == cellsPerIc
      ensures this.cmdSizeBytes == cmdSizeBytes && this.aux == aux
    {
      cmd := new byte[4];
      cmdPec := 0;
      this.bus := bus;
      this.faults := faults;
      this.pec15 := pec15;
      this.verifyPec := verifyPec;
      this.numIcs := numIcs;
      this.cellsPerIc := cellsPerIc;
      this.cmdSizeBytes := cmdSizeBytes;
      this.aux := aux;
    }

    /** The bytes of a command frame that one command exchange puts on the bus. */
    function Sent(op: seq<byte>): seq<byte>
      requires Valid() && |op| == 2
      reads this
    {
      CommandFrame(op, pec15(op))[..cmdSizeBytes]
    }

    /** The bytes the chain sends back during the exchange that follows the
        command exchange. */
    function Reply(startCursor: nat, count: nat): seq<byte>
    {
      Window(bus.miso, startCursor + cmdSizeBytes, count)
    }

    /** Fills `cmd` with the opcode, computes `cmd_pec` over it and appends it
        high byte first. */
    method BuildCommand(op: seq<byte>)
      requires Valid() && |op| == 2
      modifies this, cmd
      ensures cmdPec == pec15(op) && cmd[..] == CommandFrame(op, pec15(op))
    {
      cmd[0] := op[0];
      cmd[1] := op[1];
      assert cmd[..2] == op;
      cmdPec := pec15(cmd[..2]);
      cmd[2] := Cast8(cmdPec / 0x100);
      cmd[3] := Cast8(cmdPec);
    }

    /** `start_cell_voltage_adc_conversion`: wake the chain, send ADCV. */
    method StartCellVoltageAdcConversion()
      requires Valid()
      modifies this, cmd, bus
      ensures cmdPec == pec15(AdcvOpcode()) && cmd[..] == CommandFrame(AdcvOpcode(), pec15(AdcvOpcode()))
      ensures bus.log == old(bus.log) + [WakeChain, CsLow, Transfer(Sent(AdcvOpcode())), CsHigh]
      ensures bus.cursor == old(bus.cursor) + cmdSizeBytes
    {
      bus.WakeChain();
      BuildCommand(AdcvOpcode());
      bus.SetCsLow();
      var _ := bus.Exchange(cmd[..cmdSizeBytes]);
      bus.SetCsHigh();
    }

    /** `start_temperature_adc_conversion`: wake the chain, send ADAX. */
    method StartTemperatureAdcConversion()
      requires Valid()
      modifies this, cmd, bus
      ensures cmdPec == pec15(AdaxOpcode()) && cmd[..] == CommandFrame(AdaxOpcode(), pec15(AdaxOpcode()))
      ensures bus.log == old(bus.log) + [WakeChain, CsLow, Transfer(Sent(AdaxOpcode())), CsHigh]
      ensures bus.cursor == old(bus.cursor) + cmdSizeBytes
    {
      bus.WakeChain();
      BuildCommand(AdaxOpcode());
      bus.SetCsLow();
      var _ := bus.Exchange(cmd[..cmdSizeBytes]);
      bus.SetCsHigh();
    }

    /** `poll_adc_status`: send PLADC without waking the chain, then clock out
        DUMMY bytes while chip select stays low until the chain answers with a
        non-zero byte (`dummy_adc <= 0` on an unsigned byte is `== 0`). The
        source waits without bound; the model requires that the chain answers
        eventually. */
    method PollAdcStatus()
      requires Valid()
      requires exists k :: bus.cursor + cmdSizeBytes <= k && bus.miso(k) != 0
      modifies this, cmd, bus
      ensures cmdPec == pec15(PladcOpcode()) && cmd[..] == CommandFrame(PladcOpcode(), pec15(PladcOpcode()))
      ensures var start := old(bus.cursor) + cmdSizeBytes;
              && start < bus.cursor
              && FirstNonZero(bus.miso, start, bus.cursor - 1)
              && bus.log == old(bus.log) + [CsLow, Transfer(Sent(PladcOpcode()))]
                            + Repeat(Transfer([DUMMY]), bus.cursor - start) + [CsHigh]
    {
      BuildCommand(PladcOpcode());
      bus.SetCsLow();
      var _ := bus.Exchange(cmd[..cmdSizeBytes]);
      AwaitConversion();
      bus.SetCsHigh();
    }

    /** The wait loop of `poll_adc_status`: clock out DUMMY bytes until the
        first non-zero byte comes back. */
    method AwaitConversion()
      requires exists k :: bus.cursor <= k && bus.miso(k) != 0
      modifies bus
      ensures old(bus.cursor) < bus.cursor && FirstNonZero(bus.miso, old(bus.cursor), bus.cursor - 1)
      ensures bus.log == old(bus.log) + Repeat(Transfer([DUMMY]), bus.cursor - old(bus.cursor))
    {
      var dummyAdc: byte := 0;
      ghost var start := bus.cursor;
      ghost var logStart := bus.log;
      ghost var k :| start <= k && bus.miso(k) != 0;
      while dummyAdc == 0
        invariant start <= bus.cursor <= k + 1
        invariant bus.cursor == start ==> dummyAdc == 0
        invariant bus.cursor > start ==> dummyAdc == bus.miso(bus.cursor - 1)
        invariant forall j :: start <= j < bus.cursor - 1 ==> bus.miso(j) == 0
        invariant dummyAdc == 0 ==> bus.cursor <= k
        invariant bus.log == logStart + Repeat(Transfer([DUMMY]), bus.cursor - start)
        decreases k + 1 - bus.cursor
      {
        dummyAdc := bus.ExchangeByte(DUMMY);
      }
    }

    /** `rdcv_register`: read one cell-voltage register group from every chip,
        store the values of the chips whose checksum passes and run each chip's
        missing-measurement counter. */
    method RdcvRegister(whichReg: byte, buf: array<uint16>, valid: array<byte>)
      requires Valid() && valid != cmd
      requires Fits(buf.Length, valid.Length, cellsPerIc, numIcs)
      modifies this, cmd, bus, faults, buf, valid
      ensures cmdPec == pec15(RdcvOpcode(whichReg)) && cmd[..] == CommandFrame(RdcvOpcode(whichReg), pec15(RdcvOpcode(whichReg)))
      ensures VoltageRead(buf[..], valid[..])
           == RdcvUpTo(VoltageRead(old(buf[..]), old(valid[..])), cellsPerIc,
                       whichReg, verifyPec, Reply(old(bus.cursor), 8 * numIcs), numIcs)
      ensures faults.calls == old(faults.calls) + RdcvCalls(whichReg, verifyPec, Reply(old(bus.cursor), 8 * numIcs), numIcs)
      ensures bus.log == old(bus.log) + [WakeChain, CsLow, Transfer(Sent(RdcvOpcode(whichReg))),
                                         Clocked(8 * numIcs), CsHigh]
      ensures bus.cursor == old(bus.cursor) + cmdSizeBytes + 8 * numIcs
    {
      ghost var s0 := VoltageRead(buf[..], valid[..]);
      ghost var calls0 := faults.calls;
      ghost var reply := Reply(bus.cursor, 8 * numIcs);
      bus.WakeChain();
      BuildCommand(RdcvOpcode(whichReg));
      bus.SetCsLow();
      var _ := bus.Exchange(cmd[..cmdSizeBytes]);
      var adcvBuf := bus.ExchangeUnspecified(8 * numIcs);
      assert adcvBuf == reply;
      assert VoltageRead(buf[..], valid[..]) == s0 && faults.calls == calls0;
      DecodeVoltages(whichReg, adcvBuf, buf, valid);
      bus.SetCsHigh();
    }

    /** The chip loop of `rdcv_register`. */
    method DecodeVoltages(whichReg: byte, rx: seq<byte>, buf: array<uint16>, valid: array<byte>)
      requires Valid() && |rx| == 8 * numIcs
      requires Fits(buf.Length, valid.Length, cellsPerIc, numIcs)
      modifies faults, buf, valid
      ensures VoltageRead(buf[..], valid[..])
           == RdcvUpTo(VoltageRead(old(buf[..]), old(valid[..])), cellsPerIc, whichReg, verifyPec, rx, numIcs)
      ensures faults.calls == old(faults.calls) + RdcvCalls(whichReg, verifyPec, rx, numIcs)
    {
      ghost var s0 := VoltageRead(buf[..], valid[..]);
      ghost var calls0 := faults.calls;
      ghost var trace := RdcvTrace(s0, cellsPerIc, whichReg, verifyPec, rx, numIcs);
      var i := 0;
      while i < numIcs
        invariant 0 <= i <= numIcs
        invariant VoltageRead(buf[..], valid[..]) == trace[i]
        invariant faults.calls == calls0 + RdcvCalls(whichReg, verifyPec, rx, i)
      {
        RdcvTraceStep(s0, cellsPerIc, whichReg, verifyPec, rx, numIcs, i);
        BaseIsProduct(cellsPerIc, i);
        DecodeChip(whichReg, rx, buf, valid, i, cellsPerIc * i);
        RdcvCallsSnoc(whichReg, verifyPec, rx, i + 1);
        AppendAssoc(calls0, RdcvCalls(whichReg, verifyPec, rx, i), [IcCall(whichReg, verifyPec, rx, i)]);
        i := i + 1;
      }
    }

    /** One pass of the chip loop of `rdcv_register`: chip i's block is decoded
        into its three entries when its checksum passes, and its counter and
        fault-handler call follow Track. */
    method DecodeChip(whichReg: byte, rx: seq<byte>, buf: array<uint16>, valid: array<byte>, i: nat, base: nat)
      requires 8 * i + 8 <= |rx| && base == Base(cellsPerIc, i)
      requires base + 3 <= buf.Length && 6 * i < valid.Length
      modifies faults, buf, valid
      ensures VoltageRead(buf[..], valid[..])
           == RdcvIc(old(VoltageRead(buf[..], valid[..])), cellsPerIc, whichReg, verifyPec, rx, i)
      ensures faults.calls == old(faults.calls) + [IcCall(whichReg, verifyPec, rx, i)]
    {
      ghost var prev := VoltageRead(buf[..], valid[..]);
      if verifyPec(rx[8 * i .. 8 * i + 6], rx[8 * i + 6 .. 8 * i + 8]) == SUCCESS {
        buf[base] := Le16(rx[8 * i], rx[8 * i + 1]);
        buf[base + 1] := Le16(rx[8 * i + 2], rx[8 * i + 3]);
        buf[base + 2] := Le16(rx[8 * i + 4], rx[8 * i + 5]);
        valid[i * 6] := 0;
        faults.ResetMissingVoltageMeasurementFault(Cast8(whichReg + i * 6));
      } else {
        valid[i * 6] := Inc8(valid[i * 6]);
        faults.IncrementMissingVoltageMeasurementFault(Cast8(whichReg + i * 6));
      }
      if valid[i * 6] >= STALE_THRESHOLD {
        buf[base] := 0;
        buf[base + 1] := 0;
        buf[base + 2] := 0;
        valid[i * 6] := 0;
      }
      RdcvStepMatches(prev, VoltageRead(buf[..], valid[..]), whichReg, rx, i);
    }

    /** The effect of one pass of the chip loop, as the loop body leaves it, is
        one step of RdcvUpTo. */
    lemma RdcvStepMatches(prev: VoltageRead, next: VoltageRead, whichReg: byte, rx: seq<byte>, i: nat)
      requires Base(cellsPerIc, i) + 3 <= |prev.buf| && 6 * i < |prev.counters| && 8 * i + 8 <= |rx|
      requires |next.buf| == |prev.buf| && |next.counters| == |prev.counters|
      requires var base := Base(cellsPerIc, i);
               var out := RdcvOutcome(prev, cellsPerIc, verifyPec, rx, i);
               && ReadTriple(next.buf, base) == out.1 && next.counters[6 * i] == out.0
               && (forall j :: 0 <= j < |prev.buf| && (j < base || base + 3 <= j) ==> next.buf[j] == prev.buf[j])
               && (forall j :: 0 <= j < |prev.counters| && j != 6 * i ==> next.counters[j] == prev.counters[j])
      ensures next == RdcvIc(prev, cellsPerIc, whichReg, verifyPec, rx, i)
    {
      var r := RdcvIc(prev, cellsPerIc, whichReg, verifyPec, rx, i);
      var base := Base(cellsPerIc, i);
      assert next.buf[base] == r.buf[base] && next.buf[base + 1] == r.buf[base + 1];
      assert next.buf[base + 2] == r.buf[base + 2];
      assert next.buf == r.buf;
      assert next.counters == r.counters;
    }

    /** `rdaux_register`: read one auxiliary register group from every chip and
        store the values of the chips whose checksum passes; no counter and no
        fault call. */
    method RdauxRegister(whichReg: byte, buf: array<uint16>)
      requires Valid()
      requires BufFits(buf.Length, cellsPerIc, numIcs)
      modifies this, cmd, bus, buf
      ensures cmdPec == pec15(RdauxOpcode(whichReg, aux)) && cmd[..] == CommandFrame(RdauxOpcode(whichReg, aux), pec15(RdauxOpcode(whichReg, aux)))
      ensures buf[..] == RdauxUpTo(old(buf[..]), cellsPerIc, verifyPec, Reply(old(bus.cursor), 8 * numIcs), numIcs)
      ensures faults.calls == old(faults.calls)
      ensures bus.log == old(bus.log) + [WakeChain, CsLow, Transfer(Sent(RdauxOpcode(whichReg, aux))),
                                         Clocked(8 * numIcs), CsHigh]
      ensures bus.cursor == old(bus.cursor) + cmdSizeBytes + 8 * numIcs
    {
      bus.WakeChain();
      BuildCommand(RdauxOpcode(whichReg, aux));
      bus.SetCsLow();
      var _ := bus.Exchange(cmd[..cmdSizeBytes]);
      var adauxBuf := bus.ExchangeUnspecified(8 * numIcs);
      DecodeAux(adauxBuf, buf);
      bus.SetCsHigh();
    }

    /** The chip loop of `rdaux_register`. */
    method DecodeAux(rx: seq<byte>, buf: array<uint16>)
      requires Valid() && |rx| == 8 * numIcs
      requires BufFits(buf.Length, cellsPerIc, numIcs)
      modifies buf
      ensures buf[..] == RdauxUpTo(old(buf[..]), cellsPerIc, verifyPec, rx, numIcs)
    {
      ghost var buf0 := buf[..];
      var i := 0;
      while i < numIcs
        invariant 0 <= i <= numIcs && BufFits(buf.Length, cellsPerIc, i)
        invariant buf[..] == RdauxUpTo(buf0, cellsPerIc, verifyPec, rx, i)
      {
        BufFitsBelow(buf.Length, cellsPerIc, numIcs, i);
        BaseIsProduct(cellsPerIc, i);
        ghost var prev := buf[..];
        var base := cellsPerIc * i;
        if verifyPec(rx[8 * i .. 8 * i + 6], rx[8 * i + 6 .. 8 * i + 8]) == SUCCESS {
          buf[base] := Le16(rx[8 * i], rx[8 * i + 1]);
          buf[base + 1] := Le16(rx[8 * i + 2], rx[8 * i + 3]);
          buf[base + 2] := Le16(rx[8 * i + 4], rx[8 * i + 5]);
          assert buf[..] == WriteTriple(prev, base, BlockReading(rx, i));
        }
        i := i + 1;
      }
    }

    /** `open_wire_check`: wake the chain, send ADOW with the pull direction. */
    method OpenWireCheck(pullDir: byte)
      requires Valid()
      modifies this, cmd, bus
      ensures cmdPec == pec15(AdowOpcode(pullDir)) && cmd[..] == CommandFrame(AdowOpcode(pullDir), pec15(AdowOpcode(pullDir)))
      ensures bus.log == old(bus.log) + [WakeChain, CsLow, Transfer(Sent(AdowOpcode(pullDir))), CsHigh]
      ensures bus.cursor == old(bus.cursor) + cmdSizeBytes
    {
      bus.WakeChain();
      BuildCommand(AdowOpcode(pullDir));
      bus.SetCsLow();
      var _ := bus.Exchange(cmd[..cmdSizeBytes]);
      bus.SetCsHigh();
    }

    /** `rdcfga`: send RDCFGA and store the 6*N bytes that come back, without
        any checksum test. */
    method Rdcfga(buffer: array<byte>)
      requires Valid() && buffer != cmd && 6 * numIcs <= buffer.Length
      modifies this, cmd, bus, buffer
      ensures cmdPec == pec15(RdcfgaOpcode) && cmd[..] == CommandFrame(RdcfgaOpcode, pec15(RdcfgaOpcode))
      ensures buffer[..6 * numIcs] == Reply(old(bus.cursor), 6 * numIcs)
      ensures buffer[6 * numIcs..] == old(buffer[6 * numIcs..])
      ensures bus.log == old(bus.log) + [WakeChain, CsLow, Transfer(Sent(RdcfgaOpcode)),
                                         Clocked(6 * numIcs), CsHigh]
      ensures bus.cursor == old(bus.cursor) + cmdSizeBytes + 6 * numIcs
    {
      bus.WakeChain();
      BuildCommand(RdcfgaOpcode);
      bus.SetCsLow();
      var _ := bus.Exchange(cmd[..cmdSizeBytes]);
      bus.ReceiveInto(6 * numIcs, buffer);
      bus.SetCsHigh();
    }

    /** `wrcfga`: send WRCFGA, the 6*N payload bytes, and a checksum computed
        over the first six payload bytes only, high byte first. */
    method Wrcfga(dataToWrite: array<byte>)
      requires Valid() && 6 * numIcs <= dataToWrite.Length
      modifies this, cmd, bus
      ensures cmdPec == pec15(WrcfgaOpcode) && cmd[..] == CommandFrame(WrcfgaOpcode, pec15(WrcfgaOpcode))
      ensures bus.log == old(bus.log) + [WakeChain, CsLow, Transfer(Sent(WrcfgaOpcode)),
                                         Transfer(dataToWrite[..6 * numIcs]),
                                         Transfer(BeBytes(pec15(dataToWrite[..6]))), CsHigh]
      ensures bus.cursor == old(bus.cursor) + cmdSizeBytes + 6 * numIcs + 2
    {
      bus.WakeChain();
      BuildCommand(WrcfgaOpcode);
      var dataPec := pec15(dataToWrite[..6]);
      var dataPecTransmit := [Cast8(dataPec / 0x100), Cast8(dataPec % 0x100)];
      bus.SetCsLow();
      var _ := bus.Exchange(cmd[..cmdSizeBytes]);
      var _ := bus.Exchange(dataToWrite[..6 * numIcs]);
      var _ := bus.Exchange(dataPecTransmit);
      bus.SetCsHigh();
    }
  }
}
