/** The synchronous serial bus to the monitor-chip daisy chain, seen from the
    command layer: a log of what was put on the bus, in order, and the stream
    of bytes the chain drives on MISO, read one byte per byte clocked. */
module Spi {
  import opened LtcUtilities

  datatype BusEvent =
    | WakeChain                 // `wakeup_daisychain()`, whose body is not part of this model
    | CsLow                     // chip select asserted
    | CsHigh                    // chip select released
    | Transfer(tx: seq<byte>)   // bytes clocked out whose contents are known
    | Clocked(count: nat)       // bytes clocked out whose contents the model leaves unspecified

  /** The `len` bytes the chain drives on MISO starting at position `from`. */
  function Window(miso: nat -> byte, from: nat, len: nat): (w: seq<byte>)
    ensures |w| == len
  {
    seq(len, k requires 0 <= k => miso(from + k))
  }

  /** `n` copies of `e`. */
  function Repeat(e: BusEvent, n: nat): (r: seq<BusEvent>)
    ensures |r| == n && forall k :: 0 <= k < n ==> r[k] == e
  {
    if n == 0 then [] else Repeat(e, n - 1) + [e]
  }

  class SpiBus {
    var log: seq<BusEvent>
    /** Number of bytes exchanged so far: the next byte received is `miso(cursor)`. */
    var cursor: nat
    const miso: nat -> byte

    constructor (miso: nat -> byte)
      ensures log == [] && cursor == 0 && this.miso == miso
    {
      log := [];
      cursor := 0;
      this.miso := miso;
    }

    method WakeChain()
      modifies this
      ensures log == old(log) + [BusEvent.WakeChain] && cursor == old(cursor)
    {
      log := log + [BusEvent.WakeChain];
    }

    method SetCsLow()
      modifies this
      ensures log == old(log) + [CsLow] && cursor == old(cursor)
    {
      log := log + [CsLow];
    }

    method SetCsHigh()
      modifies this
      ensures log == old(log) + [CsHigh] && cursor == old(cursor)
    {
      log := log + [CsHigh];
    }

    /** `SPI1_Exchange8bitBuffer(tx, |tx|, rx)`: one byte received per byte sent. */
    method Exchange(tx: seq<byte>) returns (rx: seq<byte>)
      modifies this
      ensures log == old(log) + [Transfer(tx)]
      ensures rx == Window(miso, old(cursor), |tx|) && cursor == old(cursor) + |tx|
    {
      rx := Window(miso, cursor, |tx|);
      log := log + [Transfer(tx)];
      cursor := cursor + |tx|;
    }

    /** `SPI1_Exchange8bitBuffer(dummy_buf, count, rx)`: the bytes sent are not specified. */
    method ExchangeUnspecified(count: nat) returns (rx: seq<byte>)
      modifies this
      ensures log == old(log) + [Clocked(count)]
      ensures rx == Window(miso, old(cursor), count) && cursor == old(cursor) + count
    {
      rx := Window(miso, cursor, count);
      log := log + [Clocked(count)];
      cursor := cursor + count;
    }

    /** `SPI1_Exchange8bitBuffer(dummy_buf, count, dest)`: the received bytes are
        stored, one by one, into the caller's array. */
    method ReceiveInto(count: nat, dest: array<byte>)
      requires count <= dest.Length
      modifies this, dest
      ensures log == old(log) + [Clocked(count)] && cursor == old(cursor) + count
      ensures dest[..count] == Window(miso, old(cursor), count)
      ensures dest[count..] == old(dest[count..])
    {
      var k := 0;
      while k < count
        invariant 0 <= k <= count && cursor == old(cursor) + k && log == old(log)
        invariant dest[..k] == Window(miso, old(cursor), k)
        invariant dest[count..] == old(dest[count..])
      {
        dest[k] := miso(cursor);
        cursor := cursor + 1;
        k := k + 1;
      }
      log := log + [Clocked(count)];
    }

    /** `SPI1_Exchange8bit(b)`. */
    method ExchangeByte(b: byte) returns (r: byte)
      modifies this
      ensures log == old(log) + [Transfer([b])]
      ensures r == miso(old(cursor)) && cursor == old(cursor) + 1
    {
      r := miso(cursor);
      log := log + [Transfer([b])];
      cursor := cursor + 1;
    }
  }
}
