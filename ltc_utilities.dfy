/** Shared machine types and casts, and the constants of the monitor-chip
    utilities header: the polling byte `DUMMY`, the cell count, the checksum
    success code, the selectors ADCVA..ADCVF of the six cell-voltage register
    groups, and the shape of the two checksum routines, whose bodies are not
    part of this model. */
module LtcUtilities {

  type byte = x: int | 0 <= x < 0x100
  type uint16 = x: int | 0 <= x < 0x1_0000
  type int16 = x: int | -0x8000 <= x < 0x8000

  /** The byte clocked out while polling the conversion status. */
  const DUMMY: byte := 0xFF
  const NUM_CELLS: nat := 18
  const SUCCESS: byte := 0

  /** Selectors of the six cell-voltage register groups A..F. */
  const ADCVA: byte := 0
  const ADCVB: byte := 1
  const ADCVC: byte := 2
  const ADCVD: byte := 3
  const ADCVE: byte := 4
  const ADCVF: byte := 5

  /** `pec15_calc(data, len)`: the 15-bit checksum of `data`, as a 16-bit value. */
  type PecCalc = seq<byte> -> uint16
  /** `verify_pec(data, size, pec)`: SUCCESS when the two checksum bytes match `data`. */
  type PecVerify = (seq<byte>, seq<byte>) -> byte

  /** `(uint8_t)x`: truncation to the low eight bits (two's complement for negative x). */
  function Cast8(x: int): (b: byte)
    ensures (x - b) % 0x100 == 0
  {
    x % 0x100
  }

  /** A 16-bit value as two bytes, high byte first:
      `(uint8_t)(x >> 8), (uint8_t)(x & 0xFF)`. Checksums and the values of
      the vehicle-bus frames are sent this way. */
  function BeBytes(x: uint16): (b: seq<byte>)
    ensures |b| == 2 && b[0] as int * 0x100 + b[1] == x
  {
    [Cast8(x / 0x100), Cast8(x % 0x100)]
  }

  /** `(uint16_t)x`: truncation to the low sixteen bits. */
  function Cast16(x: int): (u: uint16)
    ensures (x - u) % 0x1_0000 == 0
  {
    x % 0x1_0000
  }

  /** `++b` on a `uint8_t`: 0xFF wraps around to 0. */
  function Inc8(b: byte): (r: byte)
    ensures (b + 1 - r) % 0x100 == 0
  {
    if b == 0xFF then 0 else b + 1
  }

  /** `(hi << 8) + lo`: a little-endian byte pair read back as a 16-bit value. */
  function Le16(lo: byte, hi: byte): (v: uint16)
    ensures v % 0x100 == lo && v / 0x100 == hi
  {
    hi as int * 0x100 + lo
  }

  /** The one assumption this model makes about the two checksum routines: a
      checksum pair verifies exactly when it is the high-first encoding of the
      checksum computed over the six payload bytes. It is not an axiom: it is
      stated as a precondition of the lemmas that rely on it. */
  ghost predicate PecConsistent(pec15: PecCalc, verifyPec: PecVerify)
  {
    forall data: seq<byte>, pec: seq<byte> {:trigger verifyPec(data, pec)} ::
      |data| == 6 && |pec| == 2 ==> (verifyPec(data, pec) == SUCCESS <==> pec == BeBytes(pec15(data)))
  }

  /** Regrouping of sequence concatenation, spelled out for the logs that grow
      one entry at a time. */
  lemma AppendAssoc<T>(a: seq<T>, b: seq<T>, c: seq<T>)
    ensures (a + b) + c == a + (b + c)
  {
  }
}
