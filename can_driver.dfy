/** The vehicle-bus side of the battery-management controller: cell voltages and
    pack temperatures go out four values to a frame, high byte first, on
    consecutive identifiers; a 7-byte status frame carries the state of charge,
    the two current-sensor readings and the fault codes, low byte first. After
    every transmit request the CAN status LED shows whether the request was
    accepted. */
module CanDriver {
  import opened LtcUtilities

  /** `CAN_TX_MSG_REQUEST_STATUS`: only the success value is told apart. */
  datatype TxStatus = TxRequestSuccess | TxRequestNotAccepted

  /** A standard-identifier data frame as handed to the transmit routine. */
  datatype CanMsg = CanMsg(msgId: uint16, dlc: nat, data: seq<byte>)

  const CAN_DLC_7: nat := 7
  const CAN_DLC_8: nat := 8

  /** `(n + 4 - n % 4) / 4`, stored in a `uint8_t`: the number of 4-value frames
      sent for `n` values. */
  function MessageCount(n: nat): (c: byte)
    ensures n < 1020 ==> 4 * (c - 1) <= n < 4 * c
  {
    Cast8((n + 4 - n % 4) / 4)
  }

  /** Below 1020 values the count is `n / 4 + 1`: one frame more than needed
      exactly when `n` is a multiple of four. */
  lemma MessageCountFormula(n: nat)
    requires n < 1020
    ensures MessageCount(n) == n / 4 + 1
    ensures MessageCount(n) == (n + 3) / 4 + (if n % 4 == 0 then 1 else 0)
    ensures n < 4 * MessageCount(n) <= n + 4
  {
    var q, r := n / 4, n % 4;
    assert n == 4 * q + r;
    assert n + 4 - r == 4 * (q + 1);
  }

  /** From 1020 values on the count no longer fits its `uint8_t` and wraps. */
  lemma MessageCountWraps()
    ensures MessageCount(1020) == 0 && MessageCount(1024) == 1
  {
  }

  /** Eighteen cells take five frames, so twenty entries are read. */
  lemma CellMessageCount()
    ensures MessageCount(NUM_CELLS) == 5 && 4 * MessageCount(NUM_CELLS) == 20
  {
    MessageCountFormula(NUM_CELLS);
  }

  /** The data bytes of a voltage or temperature frame: each value high byte
      first, in order. */
  function PackValues(v: seq<uint16>): (b: seq<byte>)
    ensures |b| == 2 * |v|
  {
    if v == [] then [] else BeBytes(v[0]) + PackValues(v[1..])
  }

  /** Value k occupies data bytes 2k and 2k + 1. */
  lemma {:induction false} PackValuesAt(v: seq<uint16>, k: nat)
    requires k < |v|
    ensures PackValues(v)[2 * k] as int * 0x100 + PackValues(v)[2 * k + 1] == v[k]
  {
    if k > 0 {
      PackValuesAt(v[1..], k - 1);
      assert PackValues(v)[2 * k] == PackValues(v[1..])[2 * (k - 1)];
      assert PackValues(v)[2 * k + 1] == PackValues(v[1..])[2 * (k - 1) + 1];
    }
  }

  /** The four-value case written out, as the frame builders spell it. */
  lemma PackFour(v: seq<uint16>)
    requires |v| == 4
    ensures PackValues(v) == [Cast8(v[0] / 0x100), Cast8(v[0] % 0x100), Cast8(v[1] / 0x100), Cast8(v[1] % 0x100),
                              Cast8(v[2] / 0x100), Cast8(v[2] % 0x100), Cast8(v[3] / 0x100), Cast8(v[3] % 0x100)]
  {
    var w := v[1..][1..][1..];
    assert w == [v[3]] && PackValues(w) == BeBytes(v[3]) + PackValues([]);
    assert PackValues(v[1..][1..]) == BeBytes(v[2]) + PackValues(w);
    assert PackValues(v[1..]) == BeBytes(v[1]) + PackValues(v[1..][1..]);
  }

  /** How a receiver reads the values back: `(b[2k] << 8) | b[2k+1]`. */
  function UnpackValues(b: seq<byte>): (v: seq<uint16>)
    requires |b| % 2 == 0
    ensures |v| == |b| / 2
  {
    seq(|b| / 2, k requires 0 <= k < |b| / 2 => b[2 * k] as int * 0x100 + b[2 * k + 1])
  }

  lemma UnpackPack(v: seq<uint16>)
    ensures UnpackValues(PackValues(v)) == v
  {
    forall k | 0 <= k < |v|
      ensures UnpackValues(PackValues(v))[k] == v[k]
    {
      PackValuesAt(v, k);
    }
  }

  lemma {:induction false} PackUnpack(b: seq<byte>)
    requires |b| % 2 == 0
    ensures PackValues(UnpackValues(b)) == b
    decreases |b|
  {
    if |b| > 0 {
      var v := UnpackValues(b);
      assert v[1..] == UnpackValues(b[2..]);
      PackUnpack(b[2..]);
      BeBytesOf(b[0], b[1]);
      assert b == b[..2] + b[2..];
    }
  }

  /** Two bytes read high byte first and sent again give the same two bytes. */
  lemma BeBytesOf(hi: byte, lo: byte)
    ensures BeBytes(hi as int * 0x100 + lo) == [hi, lo]
  {
    var x := hi as int * 0x100 + lo;
    assert x / 0x100 == hi && x % 0x100 == lo;
  }

  /** `sendX_message(&values[0], id)`: one 8-byte frame. */
  function ValueMessage(four: seq<uint16>, id: uint16): (m: CanMsg)
    requires |four| == 4
    ensures m.msgId == id && m.dlc == |m.data| == 8
  {
    CanMsg(id, CAN_DLC_8, PackValues(four))
  }

  /** The frames `count` loop iterations send: frame i has identifier
      `(uint16_t)(baseId + i)` and carries `values[4i..4i+3]`. */
  function ValueMessages(values: seq<uint16>, count: nat, baseId: uint16): (r: seq<CanMsg>)
    requires 4 * count <= |values|
    ensures |r| == count
    ensures forall i :: 0 <= i < count ==>
              r[i].msgId == Cast16(baseId + i) && r[i].dlc == 8 && r[i].data == PackValues(values[4 * i..4 * i + 4])
  {
    seq(count, i requires 0 <= i < count => ValueMessage(values[4 * i..4 * i + 4], Cast16(baseId + i)))
  }

  lemma ValueMessagesSnoc(values: seq<uint16>, count: nat, baseId: uint16)
    requires 0 < count && 4 * count <= |values|
    ensures ValueMessages(values, count, baseId)
         == ValueMessages(values, count - 1, baseId)
            + [ValueMessage(values[4 * (count - 1)..4 * count], Cast16(count - 1 + baseId))]
  {
    var r, front := ValueMessages(values, count, baseId), ValueMessages(values, count - 1, baseId);
    forall i | 0 <= i < count - 1
      ensures r[i] == front[i]
    {
    }
  }

  /** Value 4i + r travels in frame i, at data bytes 2r and 2r + 1, and frame i
      has identifier `(uint16_t)(baseId + i)`. */
  lemma ValueLocation(values: seq<uint16>, count: nat, baseId: uint16, i: nat, r: nat)
    requires 4 * count <= |values| && i < count && r < 4
    ensures var m := ValueMessages(values, count, baseId)[i];
            m.msgId == Cast16(baseId + i) && m.dlc == |m.data| == 8
            && m.data[2 * r] as int * 0x100 + m.data[2 * r + 1] == values[4 * i + r]
  {
    var four := values[4 * i..4 * i + 4];
    assert four[r] == values[4 * i + r];
    PackValuesAt(four, r);
  }

  /** A little-endian 16-bit pattern read back as a two's-complement value. */
  function Signed16(u: uint16): int16 {
    if u < 0x8000 then u else u - 0x1_0000
  }

  /** The status frame: state of charge, high and low current-sensor readings,
      each `(uint8_t)(x & 0xFF), (uint8_t)(x >> 8)`, then the fault codes. The
      signed readings are shifted arithmetically. */
  function StatusData(soc: uint16, csHi: int16, csLo: int16, faultCodes: byte): (d: seq<byte>)
    ensures |d| == 7 && d[6] == faultCodes
    ensures Le16(d[0], d[1]) == soc
    ensures Signed16(Le16(d[2], d[3])) == csHi && Signed16(Le16(d[4], d[5])) == csLo
  {
    SignedLowFirst(csHi);
    SignedLowFirst(csLo);
    [Cast8(soc % 0x100), Cast8(soc / 0x100),
     Cast8(csHi % 0x100), Cast8(csHi / 0x100),
     Cast8(csLo % 0x100), Cast8(csLo / 0x100),
     faultCodes]
  }

  lemma SignedLowFirst(x: int16)
    ensures Signed16(Le16(Cast8(x % 0x100), Cast8(x / 0x100))) == x
  {
    var q, r := x / 0x100, x % 0x100;
    assert x == 0x100 * q + r;
    if x < 0 {
      assert Cast8(q) == q + 0x100;
    }
  }

  /** The status fields go low byte first, the reverse of the value frames;
      a signed reading is sent as its 16-bit two's-complement pattern. */
  lemma StatusOrderOpposite(soc: uint16, csHi: int16, csLo: int16, faultCodes: byte)
    ensures var d := StatusData(soc, csHi, csLo, faultCodes);
            && d[..2] == [BeBytes(soc)[1], BeBytes(soc)[0]]
            && d[2..4] == [BeBytes(Cast16(csHi))[1], BeBytes(Cast16(csHi))[0]]
            && d[4..6] == [BeBytes(Cast16(csLo))[1], BeBytes(Cast16(csLo))[0]]
  {
    SignedFieldReversed(csHi);
    SignedFieldReversed(csLo);
  }

  /** The two low-first bytes of a signed reading are the high-first bytes of
      its 16-bit pattern, reversed. */
  lemma SignedFieldReversed(x: int16)
    ensures [Cast8(x % 0x100), Cast8(x / 0x100)] == [BeBytes(Cast16(x))[1], BeBytes(Cast16(x))[0]]
  {
    var u := Cast16(x);
    var q, r := x / 0x100, x % 0x100;
    assert x == 0x100 * q + r;
    if x < 0 {
      assert u == x + 0x1_0000 == 0x100 * (q + 0x100) + r;
      assert u / 0x100 == q + 0x100 && u % 0x100 == r;
    } else {
      assert u == x;
    }
    assert Cast8(u / 0x100) == Cast8(q) && Cast8(u % 0x100) == r;
  }

  /** The transmit side of the driver: every frame handed to `CAN1_Transmit`, in
      order, and the CAN status LED. The peripheral's answer to the k-th request
      is the input `txResults(k)`. */
  class Driver {
    var requests: seq<CanMsg>
    var led2High: bool
    const txResults: nat -> TxStatus
    const cellVoltagesId: uint16
    const packTemperatureId: uint16
    const statusId: uint16
    const numTempSensors: nat

    constructor (txResults: nat -> TxStatus, cellVoltagesId: uint16, packTemperatureId: uint16,
                 statusId: uint16, numTempSensors: nat, led2High: bool)
      ensures requests == [] && this.led2High == led2High && this.txResults == txResults
      ensures this.cellVoltagesId == cellVoltagesId && this.packTemperatureId == packTemperatureId
      ensures this.statusId == statusId && this.numTempSensors == numTempSensors
    {
      requests := [];
      this.led2High := led2High;
      this.txResults := txResults;
      this.cellVoltagesId := cellVoltagesId;
      this.packTemperatureId := packTemperatureId;
      this.statusId := statusId;
      this.numTempSensors := numTempSensors;
    }

    /** `CAN1_Transmit(CAN_PRIORITY_MEDIUM, &msg)`, then LED2 high exactly when
        the request succeeded. */
    method TransmitAndShow(msg: CanMsg)
      modifies this
      ensures requests == old(requests) + [msg]
      ensures led2High <==> txResults(|old(requests)|) == TxRequestSuccess
    {
      var status := txResults(|requests|);
      requests := requests + [msg];
      if status == TxRequestSuccess {
        led2High := true;
      } else {
        led2High := false;
      }
    }

    /** `send_cell_voltage_message` / `send_pack_temperature_message`: the two
        functions have the same body. */
    method SendValueMessage(four: seq<uint16>, id: uint16)
      requires |four| == 4
      modifies this
      ensures requests == old(requests) + [ValueMessage(four, id)]
      ensures led2High <==> txResults(|old(requests)|) == TxRequestSuccess
    {
      var canData := [Cast8(four[0] / 0x100), Cast8(four[0] % 0x100),
                      Cast8(four[1] / 0x100), Cast8(four[1] % 0x100),
                      Cast8(four[2] / 0x100), Cast8(four[2] % 0x100),
                      Cast8(four[3] / 0x100), Cast8(four[3] % 0x100)];
      PackFour(four);
      TransmitAndShow(CanMsg(id, CAN_DLC_8, canData));
    }

    /** The loop shared by `report_cell_voltages` and `report_pack_temperatures`:
        `MessageCount(n)` frames on consecutive identifiers from `baseId`; the
        LED ends up showing the last request's result. */
    method ReportValues(values: seq<uint16>, n: nat, baseId: uint16)
      requires 4 * MessageCount(n) <= |values|
      modifies this
      ensures requests == old(requests) + ValueMessages(values, MessageCount(n), baseId)
      ensures MessageCount(n) == 0 ==> led2High == old(led2High)
      ensures MessageCount(n) > 0 ==>
                (led2High <==> txResults(|old(requests)| + MessageCount(n) - 1) == TxRequestSuccess)
    {
      var upperBound := MessageCount(n);
      var i: byte := 0;
      while i < upperBound
        invariant 0 <= i <= upperBound
        invariant requests == old(requests) + ValueMessages(values, i, baseId)
        invariant i == 0 ==> led2High == old(led2High)
        invariant i > 0 ==> (led2High <==> txResults(|old(requests)| + i - 1) == TxRequestSuccess)
      {
        var msgId := Cast16(i + baseId);
        SendValueMessage(values[4 * i..4 * i + 4], msgId);
        ValueMessagesSnoc(values, i as nat + 1, baseId);
        AppendAssoc(old(requests), ValueMessages(values, i, baseId),
                    [ValueMessage(values[4 * i..4 * i + 4], msgId)]);
        i := i + 1;
      }
    }

    /** `report_cell_voltages`: the caller's array must hold four entries per
        frame, 20 for 18 cells. */
    method ReportCellVoltages(cellVoltages: seq<uint16>)
      requires 4 * MessageCount(NUM_CELLS) <= |cellVoltages|
      modifies this
      ensures requests == old(requests) + ValueMessages(cellVoltages, MessageCount(NUM_CELLS), cellVoltagesId)
      ensures led2High <==> txResults(|old(requests)| + MessageCount(NUM_CELLS) - 1) == TxRequestSuccess
    {
      CellMessageCount();
      ReportValues(cellVoltages, NUM_CELLS, cellVoltagesId);
    }

    /** `report_pack_temperatures`: the same rule over the temperature sensors. */
    method ReportPackTemperatures(packTemperatures: seq<uint16>)
      requires 4 * MessageCount(numTempSensors) <= |packTemperatures|
      modifies this
      ensures requests == old(requests) + ValueMessages(packTemperatures, MessageCount(numTempSensors), packTemperatureId)
      ensures MessageCount(numTempSensors) == 0 ==> led2High == old(led2High)
      ensures MessageCount(numTempSensors) > 0 ==>
                (led2High <==> txResults(|old(requests)| + MessageCount(numTempSensors) - 1) == TxRequestSuccess)
    {
      ReportValues(packTemperatures, numTempSensors, packTemperatureId);
    }

    /** `report_status`: the readings of the charge estimator, the current
        sensors and the fault subsystem are inputs. */
    method ReportStatus(soc: uint16, csHi: int16, csLo: int16, faultCodes: byte)
      modifies this
      ensures requests == old(requests) + [CanMsg(statusId, CAN_DLC_7, StatusData(soc, csHi, csLo, faultCodes))]
      ensures led2High <==> txResults(|old(requests)|) == TxRequestSuccess
    {
      var canData := [Cast8(soc % 0x100), Cast8(soc / 0x100),
                      Cast8(csHi % 0x100), Cast8(csHi / 0x100),
                      Cast8(csLo % 0x100), Cast8(csLo / 0x100),
                      faultCodes];
      TransmitAndShow(CanMsg(statusId, CAN_DLC_7, canData));
    }
  }
}
