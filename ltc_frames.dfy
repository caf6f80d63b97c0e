/** Command opcodes of the battery-monitor chip and the 4-byte command frame
    that carries them: two opcode bytes followed by their checksum, high byte
    first. The bit fields follow the command-bit table of the LTC6813
    datasheet (table 37). */
module LtcFrames {
  import opened LtcUtilities

  /** ADC mode (0b10), discharge-permitted bit (0: not permitted), cell selection (all cells),
      GPIO selection (all channels), and the two open-wire pull directions. */
  const MD: bv8 := 0x2
  const DCP: bv8 := 0x0
  const CH: bv8 := 0x0
  const CHG: bv8 := 0x0
  const PUP: byte := 1
  const PDN: byte := 0

  /** Byte 0 shared by ADCV and ADOW: `0x02 | ((MD >> 1) & 0b01)`. */
  function ConversionByte0(): bv8 {
    0x02 | ((MD >> 1) & 0x1)
  }

  /** The frame transmitted for a command: the opcode, then the checksum of the
      opcode, high byte first. */
  function CommandFrame(op: seq<byte>, pec: uint16): (f: seq<byte>)
    requires |op| == 2
    ensures |f| == 4 && f[..2] == op && f[2] as int * 0x100 + f[3] == pec
  {
    op + BeBytes(pec)
  }

  /** ADCV: start the cell-voltage conversion. */
  function AdcvOpcode(): (op: seq<byte>)
    ensures op == [0x03, 0x60]
  {
    [ConversionByte0() as byte, (((MD & 0x1) << 7) | 0x60 | (DCP << 4) | CH) as byte]
  }

  /** ADAX: start the GPIO (temperature) conversion. */
  function AdaxOpcode(): (op: seq<byte>)
    ensures op == [0x05, 0x60]
  {
    [(0x04 | ((MD >> 1) & 0x1)) as byte, (((MD & 0x1) << 7) | 0x60 | CHG) as byte]
  }

  /** PLADC: poll the conversion status. It is none of the conversion commands,
      and its byte 0 is not the 0x00 of the register commands. */
  function PladcOpcode(): (op: seq<byte>)
    ensures |op| == 2 && op[0] != 0x00
    ensures op != AdcvOpcode() && op != AdaxOpcode() && forall d: byte :: op != AdowOpcode(d)
  {
    [0x07, 0x14]
  }

  /** ADOW: open-wire conversion. The pull direction is shifted into bit 6 and
      the result truncated to a byte, so only its two low bits survive. */
  function AdowOpcode(pullDir: byte): (op: seq<byte>)
    ensures op == [0x03, 0x28 + 0x40 * (pullDir % 4)]
  {
    [ConversionByte0() as byte,
     (((MD & 0x1) << 7) | 0x28 | ((pullDir as bv8) << 6) | (DCP << 4) | CH) as byte]
  }

  /** The pull-up and pull-down open-wire commands differ only in bit 6 of byte 1. */
  lemma AdowDirectionsDifferInBit6()
    ensures AdowOpcode(PUP)[0] == AdowOpcode(PDN)[0]
    ensures (AdowOpcode(PUP)[1] as bv8) ^ (AdowOpcode(PDN)[1] as bv8) == 0x40
  {
  }

  /** RDCVA..RDCVF for the selectors ADCVA..ADCVF; anything else reads as 0x0000. */
  function RdcvOpcode(whichReg: byte): (op: seq<byte>)
    ensures |op| == 2 && op[0] == 0x00
    ensures whichReg <= ADCVF <==> op[1] != 0x00
  {
    if whichReg == ADCVA then [0x00, 0x04]
    else if whichReg == ADCVB then [0x00, 0x06]
    else if whichReg == ADCVC then [0x00, 0x08]
    else if whichReg == ADCVD then [0x00, 0x0A]
    else if whichReg == ADCVE then [0x00, 0x09]
    else if whichReg == ADCVF then [0x00, 0x0B]
    else [0x00, 0x00]
  }

  /** The selectors of the four auxiliary register groups A..D (their values are
      defined outside the files this model covers). */
  datatype AuxSelectors = AuxSelectors(a: byte, b: byte, c: byte, d: byte) {
    /** Distinct selectors, as the labels of one C `switch` must be. */
    predicate Distinct() {
      a != b && a != c && a != d && b != c && b != d && c != d
    }
  }

  /** RDAUXA..RDAUXD; anything else reads as 0x0000. */
  function RdauxOpcode(whichReg: byte, aux: AuxSelectors): (op: seq<byte>)
    ensures |op| == 2 && op[0] == 0x00
    ensures whichReg in {aux.a, aux.b, aux.c, aux.d} <==> op[1] != 0x00
  {
    if whichReg == aux.a then [0x00, 0x0C]
    else if whichReg == aux.b then [0x00, 0x0E]
    else if whichReg == aux.c then [0x00, 0x0D]
    else if whichReg == aux.d then [0x00, 0x0F]
    else [0x00, 0x00]
  }

  const RdcfgaOpcode: seq<byte> := [0x00, 0x02]
  const WrcfgaOpcode: seq<byte> := [0x00, 0x01]

  /** Each of the six voltage groups is read by its own command. */
  lemma RdcvOpcodesDistinct(r1: byte, r2: byte)
    requires r1 <= ADCVF && r2 <= ADCVF && r1 != r2
    ensures RdcvOpcode(r1) != RdcvOpcode(r2)
  {
  }

  /** Each of the four auxiliary groups is read by its own command, and no
      auxiliary read command is a voltage read command. */
  lemma RdauxOpcodesDistinct(r1: byte, r2: byte, v: byte, aux: AuxSelectors)
    requires aux.Distinct()
    requires r1 in {aux.a, aux.b, aux.c, aux.d} && r2 in {aux.a, aux.b, aux.c, aux.d} && r1 != r2
    ensures RdauxOpcode(r1, aux) != RdauxOpcode(r2, aux)
    ensures RdauxOpcode(r1, aux) != RdcvOpcode(v)
  {
  }
}
