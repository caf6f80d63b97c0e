/** What a register read does with the chain's response, as functions of the
    received bytes: the per-chip checksum test, the little-endian decode of
    three 16-bit values, and (for cell voltages only) the per-chip
    missing-measurement counter that zeroes stale values. The command layer's
    loops are proved equal to these functions; the lemmas here say what the
    functions mean. */
module LtcRegisters {
  import opened LtcUtilities
  import opened FaultHandler

  /** The three 16-bit values one chip reports for one register group. */
  datatype Triple = Triple(v0: uint16, v1: uint16, v2: uint16)

  const Zeros: Triple := Triple(0, 0, 0)

  /** Consecutive checksum failures after which a chip's values are zeroed. */
  const STALE_THRESHOLD: byte := 5

  // ---------------------------------------------------------------------------
  // One chip's block in an 8*N-byte response: 6 payload bytes, 2 checksum bytes.

  function BlockPayload(rx: seq<byte>, i: nat): seq<byte>
    requires 8 * i + 8 <= |rx|
  {
    rx[8 * i .. 8 * i + 6]
  }

  function BlockPec(rx: seq<byte>, i: nat): seq<byte>
    requires 8 * i + 8 <= |rx|
  {
    rx[8 * i + 6 .. 8 * i + 8]
  }

  predicate BlockPasses(verifyPec: PecVerify, rx: seq<byte>, i: nat)
    requires 8 * i + 8 <= |rx|
  {
    verifyPec(BlockPayload(rx, i), BlockPec(rx, i)) == SUCCESS
  }

  /** Under the checksum assumption, a block passes exactly when its two
      checksum bytes are the checksum of its payload, high byte first. */
  lemma BlockPassesExactly(pec15: PecCalc, verifyPec: PecVerify, rx: seq<byte>, i: nat)
    requires PecConsistent(pec15, verifyPec) && 8 * i + 8 <= |rx|
    ensures BlockPasses(verifyPec, rx, i) <==> BlockPec(rx, i) == BeBytes(pec15(BlockPayload(rx, i)))
  {
  }

  /** The three little-endian values of chip i's payload. */
  function BlockReading(rx: seq<byte>, i: nat): (t: Triple)
    requires 8 * i + 6 <= |rx|
  {
    Triple(Le16(rx[8 * i], rx[8 * i + 1]),
           Le16(rx[8 * i + 2], rx[8 * i + 3]),
           Le16(rx[8 * i + 4], rx[8 * i + 5]))
  }

  /** Sent again low byte first, the reading of a block is its payload. */
  lemma BlockReadingBytes(rx: seq<byte>, i: nat)
    requires 8 * i + 8 <= |rx|
    ensures Payload(BlockReading(rx, i)) == BlockPayload(rx, i)
  {
    var t := BlockReading(rx, i);
    assert LeBytes(t.v0) == rx[8 * i .. 8 * i + 2];
    assert LeBytes(t.v1) == rx[8 * i + 2 .. 8 * i + 4];
    assert LeBytes(t.v2) == rx[8 * i + 4 .. 8 * i + 6];
  }

  // ---------------------------------------------------------------------------
  // The caller's value buffer, three entries per chip starting at cellsPerIc*i.

  function ReadTriple(b: seq<uint16>, base: nat): Triple
    requires base + 3 <= |b|
  {
    Triple(b[base], b[base + 1], b[base + 2])
  }

  function WriteTriple(b: seq<uint16>, base: nat, t: Triple): (r: seq<uint16>)
    requires base + 3 <= |b|
    ensures |r| == |b| && ReadTriple(r, base) == t
  {
    b[base := t.v0][base + 1 := t.v1][base + 2 := t.v2]
  }

  lemma WriteTripleSame(b: seq<uint16>, base: nat)
    requires base + 3 <= |b|
    ensures WriteTriple(b, base, ReadTriple(b, base)) == b
  {
  }

  /** Whether buffer index j is one of chip i's three entries. */
  predicate InTriple(cellsPerIc: nat, i: nat, j: nat) {
    Base(cellsPerIc, i) <= j < Base(cellsPerIc, i) + 3
  }

  /** Whether buffer index j belongs to none of chips 0..n-1. */
  predicate OutsideChips(cellsPerIc: nat, n: nat, j: nat) {
    forall i :: 0 <= i < n ==> !InTriple(cellsPerIc, i, j)
  }

  /** Chips 0..n-1 have their three entries and their counter slot in range. */
  predicate BufFits(bufLen: nat, cellsPerIc: nat, n: nat) {
    n == 0 || Base(cellsPerIc, n - 1) + 3 <= bufLen
  }

  predicate Fits(bufLen: nat, counterLen: nat, cellsPerIc: nat, n: nat) {
    BufFits(bufLen, cellsPerIc, n) && (n == 0 || 6 * (n - 1) < counterLen)
  }

  /** `CELLS_PER_IC * i`, the index of chip i's first entry, written as repeated
      addition so that the proofs about it stay linear. */
  function Base(cellsPerIc: nat, i: nat): nat
    decreases i
  {
    if i == 0 then 0 else Base(cellsPerIc, i - 1) + cellsPerIc
  }

  lemma {:induction false} BaseIsProduct(cellsPerIc: nat, i: nat)
    ensures Base(cellsPerIc, i) == cellsPerIc * i
    decreases i
  {
    if i > 0 {
      BaseIsProduct(cellsPerIc, i - 1);
      assert cellsPerIc * i == cellsPerIc * (i - 1) + cellsPerIc;
    }
  }

  lemma {:induction false} BaseMono(cellsPerIc: nat, i: nat, k: nat)
    requires i <= k
    ensures Base(cellsPerIc, i) <= Base(cellsPerIc, k)
    decreases k
  {
    if i < k { BaseMono(cellsPerIc, i, k - 1); }
  }

  lemma BufFitsBelow(bufLen: nat, cellsPerIc: nat, n: nat, i: nat)
    requires BufFits(bufLen, cellsPerIc, n) && i < n
    ensures Base(cellsPerIc, i) + 3 <= bufLen && BufFits(bufLen, cellsPerIc, i)
  {
    ChipFits(bufLen, cellsPerIc, n, i);
    PrefixFits(bufLen, cellsPerIc, n, i);
  }

  lemma ChipFits(bufLen: nat, cellsPerIc: nat, n: nat, i: nat)
    requires BufFits(bufLen, cellsPerIc, n) && i < n
    ensures Base(cellsPerIc, i) + 3 <= bufLen
  {
    BaseMono(cellsPerIc, i, n - 1);
  }

  lemma PrefixFits(bufLen: nat, cellsPerIc: nat, n: nat, i: nat)
    requires BufFits(bufLen, cellsPerIc, n) && i < n
    ensures BufFits(bufLen, cellsPerIc, i)
  {
    if i > 0 { BaseMono(cellsPerIc, i - 1, n - 1); }
  }

  /** With at least three entries per chip, chip i's entries lie below chip k's
      for every later chip k. */
  lemma TriplesApart(cellsPerIc: nat, i: nat, k: nat)
    requires cellsPerIc >= 3 && i < k
    ensures Base(cellsPerIc, i) + 3 <= Base(cellsPerIc, k)
  {
    BaseMono(cellsPerIc, i + 1, k);
  }

  // ---------------------------------------------------------------------------
  // The missing-measurement counter of one chip for the voltage path.

  /** One read's effect on a chip's (counter, values): success stores the fresh
      reading and clears the counter; failure adds one to the 8-bit counter and
      keeps the values; a counter that then reaches the threshold zeroes the
      values and is cleared. */
  function Track(counter: byte, held: Triple, pass: bool, reading: Triple): (r: (byte, Triple))
    ensures pass ==> r == (0, reading)
    ensures !pass && counter < STALE_THRESHOLD - 1 ==> r == (counter + 1, held)
    ensures !pass && STALE_THRESHOLD - 1 <= counter < 0xFF ==> r == (0, Zeros)
    ensures !pass && counter == 0xFF ==> r == (0, held)
    ensures counter < STALE_THRESHOLD ==> r.0 < STALE_THRESHOLD
  {
    var (c, t) := if pass then (0, reading) else (Inc8(counter), held);
    if c >= STALE_THRESHOLD then (0, Zeros) else (c, t)
  }

  /** The outcome of one read for one chip. */
  datatype Outcome = Outcome(pass: bool, reading: Triple)

  /** A chip's (counter, values) after a series of reads, oldest first. */
  function TrackRun(counter: byte, held: Triple, rs: seq<Outcome>): (byte, Triple)
    decreases |rs|
  {
    if rs == [] then (counter, held)
    else
      var r := Track(counter, held, rs[0].pass, rs[0].reading);
      TrackRun(r.0, r.1, rs[1..])
  }

  predicate AllFail(rs: seq<Outcome>) {
    forall k :: 0 <= k < |rs| ==> !rs[k].pass
  }

  /** Fewer failures than the threshold only count up and keep the values. */
  lemma {:induction false} FailuresCountUp(counter: byte, held: Triple, rs: seq<Outcome>)
    requires AllFail(rs) && counter + |rs| < STALE_THRESHOLD
    ensures TrackRun(counter, held, rs) == (counter + |rs|, held)
    decreases |rs|
  {
    if rs != [] {
      FailuresCountUp(counter + 1, held, rs[1..]);
    }
  }

  /** Five consecutive failures from a clear counter zero the values and clear
      the counter; a sixth failure counts from one again. */
  lemma StaleAfterFiveFailures(held: Triple, rs: seq<Outcome>)
    requires AllFail(rs) && |rs| == 6
    ensures TrackRun(0, held, rs[..5]) == (0, Zeros)
    ensures TrackRun(0, held, rs) == (1, Zeros)
  {
    FailuresCountUp(0, held, rs[..4]);
    TrackRunSplit(0, held, rs[..4], rs[4..5]);
    assert rs[..4] + rs[4..5] == rs[..5];
    TrackRunSplit(0, held, rs[..5], rs[5..]);
    assert rs[..5] + rs[5..] == rs;
  }

  /** A success after one to four failures stores the new reading and clears
      the counter: nothing of the failures remains. */
  lemma RecoveryAfterFailures(held: Triple, fails: seq<Outcome>, reading: Triple)
    requires AllFail(fails) && 1 <= |fails| <= 4
    ensures TrackRun(0, held, fails + [Outcome(true, reading)]) == (0, reading)
  {
    FailuresCountUp(0, held, fails);
    TrackRunSplit(0, held, fails, [Outcome(true, reading)]);
  }

  lemma {:induction false} TrackRunSplit(counter: byte, held: Triple, rs: seq<Outcome>, qs: seq<Outcome>)
    ensures TrackRun(counter, held, rs + qs)
         == var r := TrackRun(counter, held, rs); TrackRun(r.0, r.1, qs)
    decreases |rs|
  {
    if rs != [] {
      var r := Track(counter, held, rs[0].pass, rs[0].reading);
      assert (rs + qs)[0] == rs[0];
      assert (rs + qs)[1..] == rs[1..] + qs;
      TrackRunSplit(r.0, r.1, rs[1..], qs);
    } else {
      assert rs + qs == qs;
    }
  }

  /** A counter below the threshold stays below it over any series of reads. */
  lemma {:induction false} TrackRunBelowThreshold(counter: byte, held: Triple, rs: seq<Outcome>)
    requires counter < STALE_THRESHOLD
    ensures TrackRun(counter, held, rs).0 < STALE_THRESHOLD
    decreases |rs|
  {
    if rs != [] {
      var r := Track(counter, held, rs[0].pass, rs[0].reading);
      TrackRunBelowThreshold(r.0, r.1, rs[1..]);
    }
  }

  // ---------------------------------------------------------------------------
  // A cell-voltage register read over the whole chain.

  /** The fault-section id reported for chip i: `which_reg + i*6` as a byte. */
  function FaultId(whichReg: byte, i: nat): (id: byte)
    ensures (whichReg + 6 * i - id) % 0x100 == 0
  {
    Cast8(whichReg + 6 * i)
  }

  /** Chip i's fault call: a reset exactly when its block passes, for its section. */
  function IcCall(whichReg: byte, verifyPec: PecVerify, rx: seq<byte>, i: nat): (c: FaultCall)
    requires 8 * i + 8 <= |rx|
    ensures c.ResetMissing? <==> BlockPasses(verifyPec, rx, i)
    ensures c.sectionId == FaultId(whichReg, i)
  {
    if BlockPasses(verifyPec, rx, i) then ResetMissing(FaultId(whichReg, i))
    else IncrementMissing(FaultId(whichReg, i))
  }

  /** The fault-handler calls of a read of chips 0..n-1: one per chip, in chain order. */
  function RdcvCalls(whichReg: byte, verifyPec: PecVerify, rx: seq<byte>, n: nat): (cs: seq<FaultCall>)
    requires 8 * n <= |rx|
    ensures |cs| == n
  {
    seq(n, i requires 0 <= i < n => IcCall(whichReg, verifyPec, rx, i))
  }

  lemma RdcvCallsSnoc(whichReg: byte, verifyPec: PecVerify, rx: seq<byte>, n: nat)
    requires 0 < n && 8 * n <= |rx|
    ensures RdcvCalls(whichReg, verifyPec, rx, n)
         == RdcvCalls(whichReg, verifyPec, rx, n - 1) + [IcCall(whichReg, verifyPec, rx, n - 1)]
  {
  }

  /** The caller's value buffer and the caller's counter array. The fault calls
      a read makes depend on the response alone and are given by RdcvCalls. */
  datatype VoltageRead = VoltageRead(buf: seq<uint16>, counters: seq<byte>)

  /** Chip i's step of the voltage read: its three entries and its counter slot
      get the outcome of the read (RdcvIcOutside: nothing else changes). */
  function RdcvIc(s: VoltageRead, cellsPerIc: nat, whichReg: byte, verifyPec: PecVerify,
                  rx: seq<byte>, i: nat): (r: VoltageRead)
    requires Base(cellsPerIc, i) + 3 <= |s.buf| && 6 * i < |s.counters| && 8 * i + 8 <= |rx|
    ensures |r.buf| == |s.buf| && |r.counters| == |s.counters|
  {
    var out := RdcvOutcome(s, cellsPerIc, verifyPec, rx, i);
    VoltageRead(WriteTriple(s.buf, Base(cellsPerIc, i), out.1), s.counters[6 * i := out.0])
  }

  /** The state after chips 0..n-1 have been processed, in chain order. */
  function RdcvUpTo(s0: VoltageRead, cellsPerIc: nat, whichReg: byte, verifyPec: PecVerify,
                    rx: seq<byte>, n: nat): (s: VoltageRead)
    requires Fits(|s0.buf|, |s0.counters|, cellsPerIc, n) && 8 * n <= |rx|
    ensures |s.buf| == |s0.buf| && |s.counters| == |s0.counters|
    decreases n
  {
    if n == 0 then s0
    else
      BufFitsBelow(|s0.buf|, cellsPerIc, n, n - 1);
      var prev := RdcvUpTo(s0, cellsPerIc, whichReg, verifyPec, rx, n - 1);
      RdcvIc(prev, cellsPerIc, whichReg, verifyPec, rx, n - 1)
  }

  /** One more chip: the state after chips 0..i is chip i's step applied to the
      state after chips 0..i-1. */
  lemma RdcvUpToNext(s0: VoltageRead, cellsPerIc: nat, whichReg: byte, verifyPec: PecVerify,
                     rx: seq<byte>, n: nat, i: nat)
    requires Fits(|s0.buf|, |s0.counters|, cellsPerIc, n) && 8 * n <= |rx| && i < n
    ensures Fits(|s0.buf|, |s0.counters|, cellsPerIc, i) && Fits(|s0.buf|, |s0.counters|, cellsPerIc, i + 1)
    ensures Base(cellsPerIc, i) + 3 <= |s0.buf| && 6 * i < |s0.counters|
    ensures RdcvUpTo(s0, cellsPerIc, whichReg, verifyPec, rx, i + 1)
         == RdcvIc(RdcvUpTo(s0, cellsPerIc, whichReg, verifyPec, rx, i), cellsPerIc, whichReg, verifyPec, rx, i)
  {
    BufFitsBelow(|s0.buf|, cellsPerIc, n, i);
    if i + 1 < n { BufFitsBelow(|s0.buf|, cellsPerIc, n, i + 1); }
  }

  /** The chip loop's step: chip i's step applied to the state after chips
      0..i-1 gives the state after chips 0..i. */
  lemma RdcvUpToStep(s0: VoltageRead, cellsPerIc: nat, whichReg: byte, verifyPec: PecVerify,
                     rx: seq<byte>, n: nat, i: nat, prev: VoltageRead)
    requires Fits(|s0.buf|, |s0.counters|, cellsPerIc, n) && 8 * n <= |rx| && i < n
    requires Fits(|s0.buf|, |s0.counters|, cellsPerIc, i) && prev == RdcvUpTo(s0, cellsPerIc, whichReg, verifyPec, rx, i)
    ensures Fits(|s0.buf|, |s0.counters|, cellsPerIc, i + 1)
    ensures Base(cellsPerIc, i) + 3 <= |prev.buf| && 6 * i < |prev.counters|
    ensures RdcvIc(prev, cellsPerIc, whichReg, verifyPec, rx, i) == RdcvUpTo(s0, cellsPerIc, whichReg, verifyPec, rx, i + 1)
  {
    RdcvUpToNext(s0, cellsPerIc, whichReg, verifyPec, rx, n, i);
  }

  /** The states before chip 0, after chip 0, .., after chip n-1: a proof device
      that lets the chip loop step from one state to the next without
      unfolding RdcvUpTo. */
  function RdcvTrace(s0: VoltageRead, cellsPerIc: nat, whichReg: byte, verifyPec: PecVerify,
                     rx: seq<byte>, n: nat): (t: seq<VoltageRead>)
    requires Fits(|s0.buf|, |s0.counters|, cellsPerIc, n) && 8 * n <= |rx|
    ensures |t| == n + 1 && t[0] == s0 && t[n] == RdcvUpTo(s0, cellsPerIc, whichReg, verifyPec, rx, n)
    decreases n
  {
    if n == 0 then [s0]
    else
      BufFitsBelow(|s0.buf|, cellsPerIc, n, n - 1);
      var front := RdcvTrace(s0, cellsPerIc, whichReg, verifyPec, rx, n - 1);
      front + [RdcvUpTo(s0, cellsPerIc, whichReg, verifyPec, rx, n)]
  }

  /** Consecutive states of the trace are one chip step apart. */
  lemma {:induction false} RdcvTraceStep(s0: VoltageRead, cellsPerIc: nat, whichReg: byte, verifyPec: PecVerify,
                                         rx: seq<byte>, n: nat, i: nat)
    requires Fits(|s0.buf|, |s0.counters|, cellsPerIc, n) && 8 * n <= |rx| && i < n
    ensures Base(cellsPerIc, i) + 3 <= |s0.buf| && 6 * i < |s0.counters|
    ensures var t := RdcvTrace(s0, cellsPerIc, whichReg, verifyPec, rx, n);
            |t[i].buf| == |s0.buf| && |t[i].counters| == |s0.counters|
            && t[i + 1] == RdcvIc(t[i], cellsPerIc, whichReg, verifyPec, rx, i)
    decreases n
  {
    RdcvTraceAt(s0, cellsPerIc, whichReg, verifyPec, rx, n, i);
    RdcvTraceAt(s0, cellsPerIc, whichReg, verifyPec, rx, n, i + 1);
    var t := RdcvTrace(s0, cellsPerIc, whichReg, verifyPec, rx, n);
    RdcvUpToStep(s0, cellsPerIc, whichReg, verifyPec, rx, n, i, t[i]);
  }

  lemma {:induction false} RdcvTraceAt(s0: VoltageRead, cellsPerIc: nat, whichReg: byte, verifyPec: PecVerify,
                                       rx: seq<byte>, n: nat, k: nat)
    requires Fits(|s0.buf|, |s0.counters|, cellsPerIc, n) && 8 * n <= |rx| && k <= n
    ensures Fits(|s0.buf|, |s0.counters|, cellsPerIc, k)
    ensures RdcvTrace(s0, cellsPerIc, whichReg, verifyPec, rx, n)[k] == RdcvUpTo(s0, cellsPerIc, whichReg, verifyPec, rx, k)
    decreases n
  {
    if k < n {
      BufFitsBelow(|s0.buf|, cellsPerIc, n, n - 1);
      RdcvTraceAt(s0, cellsPerIc, whichReg, verifyPec, rx, n - 1, k);
    }
  }

  /** What the read does to chip i's (counter, values), given the state it finds. */
  function RdcvOutcome(s0: VoltageRead, cellsPerIc: nat, verifyPec: PecVerify, rx: seq<byte>, i: nat): (r: (byte, Triple))
    requires Base(cellsPerIc, i) + 3 <= |s0.buf| && 6 * i < |s0.counters| && 8 * i + 8 <= |rx|
    ensures var c, held, pass := s0.counters[6 * i], ReadTriple(s0.buf, Base(cellsPerIc, i)), BlockPasses(verifyPec, rx, i);
            && (pass ==> r == (0, BlockReading(rx, i)))
            && (!pass && c < STALE_THRESHOLD - 1 ==> r == (c + 1, held))
            && (!pass && STALE_THRESHOLD - 1 <= c < 0xFF ==> r == (0, Zeros))
            && (!pass && c == 0xFF ==> r == (0, held))
  {
    Track(s0.counters[6 * i], ReadTriple(s0.buf, Base(cellsPerIc, i)),
          BlockPasses(verifyPec, rx, i), BlockReading(rx, i))
  }

  /** Whether counter index k is the slot of chip i: `cell_voltages_valid[i*6]`. */
  predicate CounterSlot(i: nat, k: nat) {
    k == 6 * i
  }

  /** Entries that belong to none of chips 0..n-1 are not written. */
  lemma {:induction false} RdcvBufUntouched(s0: VoltageRead, cellsPerIc: nat, whichReg: byte,
                                            verifyPec: PecVerify, rx: seq<byte>, n: nat)
    requires Fits(|s0.buf|, |s0.counters|, cellsPerIc, n) && 8 * n <= |rx|
    ensures var s := RdcvUpTo(s0, cellsPerIc, whichReg, verifyPec, rx, n);
            forall j :: 0 <= j < |s0.buf| && OutsideChips(cellsPerIc, n, j)
              ==> s.buf[j] == s0.buf[j]
    decreases n
  {
    if n > 0 {
      BufFitsBelow(|s0.buf|, cellsPerIc, n, n - 1);
      RdcvBufUntouched(s0, cellsPerIc, whichReg, verifyPec, rx, n - 1);
      var prev := RdcvUpTo(s0, cellsPerIc, whichReg, verifyPec, rx, n - 1);
      var s := RdcvUpTo(s0, cellsPerIc, whichReg, verifyPec, rx, n);
      assert s == RdcvIc(prev, cellsPerIc, whichReg, verifyPec, rx, n - 1);
      forall j | 0 <= j < |s0.buf| && OutsideChips(cellsPerIc, n, j)
        ensures s.buf[j] == s0.buf[j]
      {
        assert !InTriple(cellsPerIc, n - 1, j);
        assert OutsideChips(cellsPerIc, n - 1, j);
        RdcvIcOutside(prev, cellsPerIc, whichReg, verifyPec, rx, n - 1, j);
      }
    }
  }

  /** Processing chip i writes none of the entries outside chip i's three. */
  lemma RdcvIcOutside(s: VoltageRead, cellsPerIc: nat, whichReg: byte,
                      verifyPec: PecVerify, rx: seq<byte>, i: nat, j: nat)
    requires Base(cellsPerIc, i) + 3 <= |s.buf| && 6 * i < |s.counters| && 8 * i + 8 <= |rx|
    requires j < |s.buf| && !InTriple(cellsPerIc, i, j)
    ensures RdcvIc(s, cellsPerIc, whichReg, verifyPec, rx, i).buf[j] == s.buf[j]
  {
  }

  /** Counter indices other than the slots 0, 6, .., 6(n-1) are not written. */
  lemma {:induction false} RdcvCountersUntouched(s0: VoltageRead, cellsPerIc: nat, whichReg: byte,
                                                 verifyPec: PecVerify, rx: seq<byte>, n: nat)
    requires Fits(|s0.buf|, |s0.counters|, cellsPerIc, n) && 8 * n <= |rx|
    ensures var s := RdcvUpTo(s0, cellsPerIc, whichReg, verifyPec, rx, n);
            forall k :: 0 <= k < |s0.counters| && (forall i :: 0 <= i < n ==> !CounterSlot(i, k))
              ==> s.counters[k] == s0.counters[k]
    decreases n
  {
    if n > 0 {
      BufFitsBelow(|s0.buf|, cellsPerIc, n, n - 1);
      RdcvCountersUntouched(s0, cellsPerIc, whichReg, verifyPec, rx, n - 1);
      var prev := RdcvUpTo(s0, cellsPerIc, whichReg, verifyPec, rx, n - 1);
      var s := RdcvUpTo(s0, cellsPerIc, whichReg, verifyPec, rx, n);
      assert s.counters == prev.counters[6 * (n - 1) := RdcvOutcome(prev, cellsPerIc, verifyPec, rx, n - 1).0];
      forall k | 0 <= k < |s0.counters| && (forall i :: 0 <= i < n ==> !CounterSlot(i, k))
        ensures s.counters[k] == s0.counters[k]
      {
        assert !CounterSlot(n - 1, k);
      }
    }
  }

  /** Before chip i is processed, its entries and its counter still hold their
      values from before the read. */
  lemma RdcvFirstVisit(s0: VoltageRead, cellsPerIc: nat, whichReg: byte,
                       verifyPec: PecVerify, rx: seq<byte>, i: nat)
    requires cellsPerIc >= 3 && Fits(|s0.buf|, |s0.counters|, cellsPerIc, i + 1) && 8 * i <= |rx|
    ensures Base(cellsPerIc, i) + 3 <= |s0.buf| && 6 * i < |s0.counters|
    ensures Fits(|s0.buf|, |s0.counters|, cellsPerIc, i)
    ensures var prev := RdcvUpTo(s0, cellsPerIc, whichReg, verifyPec, rx, i);
            ReadTriple(prev.buf, Base(cellsPerIc, i)) == ReadTriple(s0.buf, Base(cellsPerIc, i))
            && prev.counters[6 * i] == s0.counters[6 * i]
  {
    BufFitsBelow(|s0.buf|, cellsPerIc, i + 1, i);
    RdcvBufUntouched(s0, cellsPerIc, whichReg, verifyPec, rx, i);
    RdcvCountersUntouched(s0, cellsPerIc, whichReg, verifyPec, rx, i);
    var prev := RdcvUpTo(s0, cellsPerIc, whichReg, verifyPec, rx, i);
    var base := Base(cellsPerIc, i);
    forall j | base <= j < base + 3 ensures prev.buf[j] == s0.buf[j] {
      forall m | 0 <= m < i ensures !InTriple(cellsPerIc, m, j) {
        TriplesApart(cellsPerIc, m, i);
      }
      assert OutsideChips(cellsPerIc, i, j);
    }
    assert prev.buf[base] == s0.buf[base] && prev.buf[base + 1] == s0.buf[base + 1];
    assert prev.buf[base + 2] == s0.buf[base + 2];
    assert forall m :: 0 <= m < i ==> !CounterSlot(m, 6 * i);
  }

  /** Processing a later chip k leaves chip i's entries and counter alone. */
  lemma RdcvLaterChipKeeps(s: VoltageRead, cellsPerIc: nat, whichReg: byte,
                           verifyPec: PecVerify, rx: seq<byte>, i: nat, k: nat)
    requires cellsPerIc >= 3 && i < k
    requires Base(cellsPerIc, k) + 3 <= |s.buf| && 6 * k < |s.counters| && 8 * k + 8 <= |rx|
    ensures Base(cellsPerIc, i) + 3 <= |s.buf|
    ensures var r := RdcvIc(s, cellsPerIc, whichReg, verifyPec, rx, k);
            ReadTriple(r.buf, Base(cellsPerIc, i)) == ReadTriple(s.buf, Base(cellsPerIc, i))
            && r.counters[6 * i] == s.counters[6 * i]
  {
    TriplesApart(cellsPerIc, i, k);
  }

  /** Chip i's three entries and counter after the whole read are what Track
      makes of their values before the read. */
  lemma {:induction false} RdcvUpToAt(s0: VoltageRead, cellsPerIc: nat, whichReg: byte,
                                      verifyPec: PecVerify, rx: seq<byte>, n: nat, i: nat)
    requires cellsPerIc >= 3 && Fits(|s0.buf|, |s0.counters|, cellsPerIc, n) && 8 * n <= |rx| && i < n
    ensures Base(cellsPerIc, i) + 3 <= |s0.buf| && 6 * i < |s0.counters|
    ensures var s := RdcvUpTo(s0, cellsPerIc, whichReg, verifyPec, rx, n);
            var out := RdcvOutcome(s0, cellsPerIc, verifyPec, rx, i);
            ReadTriple(s.buf, Base(cellsPerIc, i)) == out.1 && s.counters[6 * i] == out.0
    decreases n
  {
    BufFitsBelow(|s0.buf|, cellsPerIc, n, i);
    BufFitsBelow(|s0.buf|, cellsPerIc, n, n - 1);
    if i == n - 1 {
      RdcvLastChip(s0, cellsPerIc, whichReg, verifyPec, rx, i);
    } else {
      RdcvUpToAt(s0, cellsPerIc, whichReg, verifyPec, rx, n - 1, i);
      RdcvUpToKeeps(s0, cellsPerIc, whichReg, verifyPec, rx, n - 1, i);
    }
  }

  /** Reading chip n after chips 0..n-1 leaves an earlier chip i's entries and counter alone. */
  lemma RdcvUpToKeeps(s0: VoltageRead, cellsPerIc: nat, whichReg: byte,
                      verifyPec: PecVerify, rx: seq<byte>, n: nat, i: nat)
    requires cellsPerIc >= 3 && Fits(|s0.buf|, |s0.counters|, cellsPerIc, n + 1) && 8 * n + 8 <= |rx| && i < n
    ensures Base(cellsPerIc, i) + 3 <= |s0.buf| && 6 * i < |s0.counters| && Fits(|s0.buf|, |s0.counters|, cellsPerIc, n)
    ensures var prev := RdcvUpTo(s0, cellsPerIc, whichReg, verifyPec, rx, n);
            var s := RdcvUpTo(s0, cellsPerIc, whichReg, verifyPec, rx, n + 1);
            ReadTriple(s.buf, Base(cellsPerIc, i)) == ReadTriple(prev.buf, Base(cellsPerIc, i))
            && s.counters[6 * i] == prev.counters[6 * i]
  {
    BufFitsBelow(|s0.buf|, cellsPerIc, n + 1, i);
    BufFitsBelow(|s0.buf|, cellsPerIc, n + 1, n);
    var prev := RdcvUpTo(s0, cellsPerIc, whichReg, verifyPec, rx, n);
    RdcvLaterChipKeeps(prev, cellsPerIc, whichReg, verifyPec, rx, i, n);
  }

  /** The chip read last gets Track's outcome on its values from before the read. */
  lemma RdcvLastChip(s0: VoltageRead, cellsPerIc: nat, whichReg: byte,
                     verifyPec: PecVerify, rx: seq<byte>, i: nat)
    requires cellsPerIc >= 3 && Fits(|s0.buf|, |s0.counters|, cellsPerIc, i + 1) && 8 * i + 8 <= |rx|
    ensures Base(cellsPerIc, i) + 3 <= |s0.buf| && 6 * i < |s0.counters|
    ensures var s := RdcvUpTo(s0, cellsPerIc, whichReg, verifyPec, rx, i + 1);
            var out := RdcvOutcome(s0, cellsPerIc, verifyPec, rx, i);
            ReadTriple(s.buf, Base(cellsPerIc, i)) == out.1 && s.counters[6 * i] == out.0
  {
    RdcvFirstVisit(s0, cellsPerIc, whichReg, verifyPec, rx, i);
    var prev := RdcvUpTo(s0, cellsPerIc, whichReg, verifyPec, rx, i);
    RdcvIcAt(prev, cellsPerIc, whichReg, verifyPec, rx, i);
    assert RdcvOutcome(prev, cellsPerIc, verifyPec, rx, i) == RdcvOutcome(s0, cellsPerIc, verifyPec, rx, i);
  }

  /** Processing chip i stores Track's outcome in chip i's entries and counter. */
  lemma RdcvIcAt(s: VoltageRead, cellsPerIc: nat, whichReg: byte,
                 verifyPec: PecVerify, rx: seq<byte>, i: nat)
    requires Base(cellsPerIc, i) + 3 <= |s.buf| && 6 * i < |s.counters| && 8 * i + 8 <= |rx|
    ensures var r := RdcvIc(s, cellsPerIc, whichReg, verifyPec, rx, i);
            var out := RdcvOutcome(s, cellsPerIc, verifyPec, rx, i);
            ReadTriple(r.buf, Base(cellsPerIc, i)) == out.1 && r.counters[6 * i] == out.0
  {
  }

  /** The voltage read, chip by chip: a passing block stores its decoded values
      and clears the counter; a failing block adds one to the counter and keeps
      the values, unless that makes five, in which case the values are zeroed
      and the counter cleared; a counter of 255 wraps to 0 and keeps the
      values. Either way exactly one fault call is made for the
      chip, with section id `which_reg + 6i`: a reset on success, an increment
      on failure. */
  lemma RdcvChip(s0: VoltageRead, cellsPerIc: nat, whichReg: byte,
                 verifyPec: PecVerify, rx: seq<byte>, n: nat, i: nat)
    requires cellsPerIc >= 3 && Fits(|s0.buf|, |s0.counters|, cellsPerIc, n) && 8 * n <= |rx| && i < n
    ensures Base(cellsPerIc, i) + 3 <= |s0.buf| && 6 * i < |s0.counters|
    ensures var s := RdcvUpTo(s0, cellsPerIc, whichReg, verifyPec, rx, n);
            var held := ReadTriple(s0.buf, Base(cellsPerIc, i));
            var c := s0.counters[6 * i];
            var calls := RdcvCalls(whichReg, verifyPec, rx, n);
            && |calls| == n
            && (BlockPasses(verifyPec, rx, i) ==>
                  ReadTriple(s.buf, Base(cellsPerIc, i)) == BlockReading(rx, i) && s.counters[6 * i] == 0
                  && calls[i] == ResetMissing(FaultId(whichReg, i)))
            && (!BlockPasses(verifyPec, rx, i) ==>
                  calls[i] == IncrementMissing(FaultId(whichReg, i)))
            && (!BlockPasses(verifyPec, rx, i) && c < STALE_THRESHOLD - 1 ==>
                  ReadTriple(s.buf, Base(cellsPerIc, i)) == held && s.counters[6 * i] == c + 1)
            && (!BlockPasses(verifyPec, rx, i) && STALE_THRESHOLD - 1 <= c < 0xFF ==>
                  ReadTriple(s.buf, Base(cellsPerIc, i)) == Zeros && s.counters[6 * i] == 0)
            && (!BlockPasses(verifyPec, rx, i) && c == 0xFF ==>
                  ReadTriple(s.buf, Base(cellsPerIc, i)) == held && s.counters[6 * i] == 0)
  {
    RdcvUpToAt(s0, cellsPerIc, whichReg, verifyPec, rx, n, i);
  }

  /** Every counter of chips 0..n-1 is below the threshold. */
  predicate CountersBelow(counters: seq<byte>, n: nat)
    requires n == 0 || 6 * (n - 1) < |counters|
  {
    forall i :: 0 <= i < n ==> CounterOf(counters, i) < STALE_THRESHOLD
  }

  function CounterOf(counters: seq<byte>, i: nat): byte
    requires 6 * i < |counters|
  {
    counters[6 * i]
  }

  /** Counters of the chips read set to at most four before a read stay so after it. */
  lemma RdcvCountersStayBelow(s0: VoltageRead, cellsPerIc: nat, whichReg: byte,
                              verifyPec: PecVerify, rx: seq<byte>, n: nat)
    requires cellsPerIc >= 3 && Fits(|s0.buf|, |s0.counters|, cellsPerIc, n) && 8 * n <= |rx|
    requires CountersBelow(s0.counters, n)
    ensures CountersBelow(RdcvUpTo(s0, cellsPerIc, whichReg, verifyPec, rx, n).counters, n)
  {
    var s := RdcvUpTo(s0, cellsPerIc, whichReg, verifyPec, rx, n);
    forall i | 0 <= i < n ensures CounterOf(s.counters, i) < STALE_THRESHOLD {
      RdcvUpToAt(s0, cellsPerIc, whichReg, verifyPec, rx, n, i);
      assert CounterOf(s0.counters, i) < STALE_THRESHOLD;
    }
  }

  // ---------------------------------------------------------------------------
  // An auxiliary (GPIO) register read: same decode, no counter, no fault calls.

  /** Chip i's step of the auxiliary read: a passing block's values go into its
      three entries; a failing block changes nothing. */
  function RdauxIc(buf: seq<uint16>, cellsPerIc: nat, verifyPec: PecVerify, rx: seq<byte>, i: nat): (r: seq<uint16>)
    requires Base(cellsPerIc, i) + 3 <= |buf| && 8 * i + 8 <= |rx|
    ensures |r| == |buf|
    ensures BlockPasses(verifyPec, rx, i) ==> ReadTriple(r, Base(cellsPerIc, i)) == BlockReading(rx, i)
    ensures !BlockPasses(verifyPec, rx, i) ==> r == buf
  {
    if BlockPasses(verifyPec, rx, i) then WriteTriple(buf, Base(cellsPerIc, i), BlockReading(rx, i)) else buf
  }

  function RdauxUpTo(buf0: seq<uint16>, cellsPerIc: nat, verifyPec: PecVerify, rx: seq<byte>, n: nat): (buf: seq<uint16>)
    requires BufFits(|buf0|, cellsPerIc, n) && 8 * n <= |rx|
    ensures |buf| == |buf0|
    decreases n
  {
    if n == 0 then buf0
    else
      BufFitsBelow(|buf0|, cellsPerIc, n, n - 1);
      RdauxIc(RdauxUpTo(buf0, cellsPerIc, verifyPec, rx, n - 1), cellsPerIc, verifyPec, rx, n - 1)
  }

  lemma {:induction false} RdauxUpToUntouched(buf0: seq<uint16>, cellsPerIc: nat, verifyPec: PecVerify,
                                              rx: seq<byte>, n: nat)
    requires BufFits(|buf0|, cellsPerIc, n) && 8 * n <= |rx|
    ensures var buf := RdauxUpTo(buf0, cellsPerIc, verifyPec, rx, n);
            forall j :: 0 <= j < |buf0| && OutsideChips(cellsPerIc, n, j)
              ==> buf[j] == buf0[j]
    decreases n
  {
    if n > 0 {
      BufFitsBelow(|buf0|, cellsPerIc, n, n - 1);
      RdauxUpToUntouched(buf0, cellsPerIc, verifyPec, rx, n - 1);
      var prev := RdauxUpTo(buf0, cellsPerIc, verifyPec, rx, n - 1);
      var buf := RdauxUpTo(buf0, cellsPerIc, verifyPec, rx, n);
      assert buf == RdauxIc(prev, cellsPerIc, verifyPec, rx, n - 1);
      forall j | 0 <= j < |buf0| && OutsideChips(cellsPerIc, n, j)
        ensures buf[j] == buf0[j]
      {
        assert !InTriple(cellsPerIc, n - 1, j);
        assert OutsideChips(cellsPerIc, n - 1, j);
        assert buf[j] == prev[j];
      }
    }
  }

  /** The auxiliary read, chip by chip: a passing block stores its decoded
      values, a failing block leaves the chip's entries as they were. */
  lemma {:induction false} RdauxChip(buf0: seq<uint16>, cellsPerIc: nat, verifyPec: PecVerify,
                                     rx: seq<byte>, n: nat, i: nat)
    requires cellsPerIc >= 3 && BufFits(|buf0|, cellsPerIc, n) && 8 * n <= |rx| && i < n
    ensures Base(cellsPerIc, i) + 3 <= |buf0|
    ensures ReadTriple(RdauxUpTo(buf0, cellsPerIc, verifyPec, rx, n), Base(cellsPerIc, i))
         == if BlockPasses(verifyPec, rx, i) then BlockReading(rx, i) else ReadTriple(buf0, Base(cellsPerIc, i))
    decreases n
  {
    BufFitsBelow(|buf0|, cellsPerIc, n, i);
    BufFitsBelow(|buf0|, cellsPerIc, n, n - 1);
    var prev := RdauxUpTo(buf0, cellsPerIc, verifyPec, rx, n - 1);
    var base := Base(cellsPerIc, i);
    if i == n - 1 {
      RdauxUpToUntouched(buf0, cellsPerIc, verifyPec, rx, n - 1);
      forall j | base <= j < base + 3 ensures prev[j] == buf0[j] {
        forall k | 0 <= k < n - 1 ensures !InTriple(cellsPerIc, k, j) {
          TriplesApart(cellsPerIc, k, i);
        }
        assert OutsideChips(cellsPerIc, n - 1, j);
      }
      assert ReadTriple(prev, base) == ReadTriple(buf0, base);
    } else {
      RdauxChip(buf0, cellsPerIc, verifyPec, rx, n - 1, i);
      TriplesApart(cellsPerIc, i, n - 1);
      var buf := RdauxIc(prev, cellsPerIc, verifyPec, rx, n - 1);
      assert ReadTriple(buf, base) == ReadTriple(prev, base);
    }
  }

  // ---------------------------------------------------------------------------
  // Responses with correct checksums.

  /** The two bytes of v, low byte first, as the chip sends them. */
  function LeBytes(v: uint16): (b: seq<byte>)
    ensures |b| == 2 && Le16(b[0], b[1]) == v
  {
    [v % 0x100, v / 0x100]
  }

  function Payload(t: Triple): (p: seq<byte>)
    ensures |p| == 6
  {
    LeBytes(t.v0) + LeBytes(t.v1) + LeBytes(t.v2)
  }

  /** The 8*N bytes a chain whose chips report `ts` sends back, each payload
      followed by its correct checksum. */
  function Response(pec15: PecCalc, ts: seq<Triple>): (rx: seq<byte>)
    ensures |rx| == 8 * |ts|
    decreases |ts|
  {
    if ts == [] then []
    else Response(pec15, ts[..|ts| - 1]) + Payload(ts[|ts| - 1]) + BeBytes(pec15(Payload(ts[|ts| - 1])))
  }

  lemma {:induction false} ResponseBlock(pec15: PecCalc, ts: seq<Triple>, i: nat)
    requires i < |ts|
    ensures BlockPayload(Response(pec15, ts), i) == Payload(ts[i])
    ensures BlockPec(Response(pec15, ts), i) == BeBytes(pec15(Payload(ts[i])))
    decreases |ts|
  {
    var last := |ts| - 1;
    var front := Response(pec15, ts[..last]);
    var rx := Response(pec15, ts);
    assert rx == front + Payload(ts[last]) + BeBytes(pec15(Payload(ts[last])));
    if i < last {
      ResponseBlock(pec15, ts[..last], i);
      assert rx[8 * i .. 8 * i + 8] == front[8 * i .. 8 * i + 8];
    } else {
      assert rx[8 * i ..] == Payload(ts[last]) + BeBytes(pec15(Payload(ts[last])));
    }
  }

  /** A block that holds a chip's payload and its correct checksum passes and
      decodes to that chip's values (under the checksum assumption). */
  lemma BlockOfPayload(pec15: PecCalc, verifyPec: PecVerify, rx: seq<byte>, i: nat, t: Triple)
    requires PecConsistent(pec15, verifyPec) && 8 * i + 8 <= |rx|
    requires BlockPayload(rx, i) == Payload(t) && BlockPec(rx, i) == BeBytes(pec15(Payload(t)))
    ensures BlockPasses(verifyPec, rx, i) && BlockReading(rx, i) == t
  {
    var p := Payload(t);
    assert verifyPec(p, BlockPec(rx, i)) == SUCCESS;
    assert p[0..2] == LeBytes(t.v0) && p[2..4] == LeBytes(t.v1) && p[4..6] == LeBytes(t.v2);
    assert rx[8 * i] == p[0] && rx[8 * i + 1] == p[1] && rx[8 * i + 2] == p[2];
    assert rx[8 * i + 3] == p[3] && rx[8 * i + 4] == p[4] && rx[8 * i + 5] == p[5];
  }

  /** Decoding a response with correct checksums gives back every chip's values
      (under the checksum assumption). */
  lemma ResponseDecodes(pec15: PecCalc, verifyPec: PecVerify, ts: seq<Triple>, i: nat)
    requires PecConsistent(pec15, verifyPec) && i < |ts|
    ensures BlockPasses(verifyPec, Response(pec15, ts), i)
    ensures BlockReading(Response(pec15, ts), i) == ts[i]
  {
    ResponseBlock(pec15, ts, i);
    BlockOfPayload(pec15, verifyPec, Response(pec15, ts), i, ts[i]);
  }

  /** A voltage read of a response with correct checksums stores every chip's
      values, clears every counter and reports every section as measured. */
  lemma RdcvOfGoodResponse(s0: VoltageRead, cellsPerIc: nat, whichReg: byte,
                           pec15: PecCalc, verifyPec: PecVerify, ts: seq<Triple>, i: nat)
    requires PecConsistent(pec15, verifyPec) && cellsPerIc >= 3
    requires Fits(|s0.buf|, |s0.counters|, cellsPerIc, |ts|) && i < |ts|
    ensures Base(cellsPerIc, i) + 3 <= |s0.buf| && 6 * i < |s0.counters|
    ensures var s := RdcvUpTo(s0, cellsPerIc, whichReg, verifyPec, Response(pec15, ts), |ts|);
            ReadTriple(s.buf, Base(cellsPerIc, i)) == ts[i] && s.counters[6 * i] == 0
            && RdcvCalls(whichReg, verifyPec, Response(pec15, ts), |ts|)[i] == ResetMissing(FaultId(whichReg, i))
  {
    ResponseDecodes(pec15, verifyPec, ts, i);
    RdcvChip(s0, cellsPerIc, whichReg, verifyPec, Response(pec15, ts), |ts|, i);
  }

  /** A single chip reporting 1000, 2000 and 3000 mV-units for group A: with a
      correct checksum the values are stored and the section reported measured;
      with any other checksum pair the previous values stay and the section is
      reported missing. */
  lemma GroupAExample(pec15: PecCalc, verifyPec: PecVerify, held: seq<uint16>, counters: seq<byte>,
                      cellsPerIc: nat, badPec: seq<byte>)
    requires PecConsistent(pec15, verifyPec)
    requires |held| >= 3 && |counters| >= 1 && counters[0] < STALE_THRESHOLD - 1
    requires |badPec| == 2 && badPec != BeBytes(pec15([0xE8, 0x03, 0xD0, 0x07, 0xB8, 0x0B]))
    ensures var payload: seq<byte> := [0xE8, 0x03, 0xD0, 0x07, 0xB8, 0x0B];
            var s0 := VoltageRead(held, counters);
            var good := RdcvUpTo(s0, cellsPerIc, ADCVA, verifyPec, payload + BeBytes(pec15(payload)), 1);
            var bad := RdcvUpTo(s0, cellsPerIc, ADCVA, verifyPec, payload + badPec, 1);
            && good.buf[..3] == [1000, 2000, 3000] && good.counters[0] == 0
            && RdcvCalls(ADCVA, verifyPec, payload + BeBytes(pec15(payload)), 1) == [ResetMissing(0)]
            && bad.buf == held && bad.counters[0] == counters[0] + 1
            && RdcvCalls(ADCVA, verifyPec, payload + badPec, 1) == [IncrementMissing(0)]
  {
    var payload: seq<byte> := [0xE8, 0x03, 0xD0, 0x07, 0xB8, 0x0B];
    var rxGood := payload + BeBytes(pec15(payload));
    var rxBad := payload + badPec;
    assert BlockPayload(rxGood, 0) == payload && BlockPec(rxGood, 0) == BeBytes(pec15(payload));
    assert BlockPayload(rxBad, 0) == payload && BlockPec(rxBad, 0) == badPec;
    assert BlockPasses(verifyPec, rxGood, 0);
    assert !BlockPasses(verifyPec, rxBad, 0);
    var s0 := VoltageRead(held, counters);
    var good := RdcvUpTo(s0, cellsPerIc, ADCVA, verifyPec, rxGood, 1);
    var bad := RdcvUpTo(s0, cellsPerIc, ADCVA, verifyPec, rxBad, 1);
    assert good == RdcvIc(s0, cellsPerIc, ADCVA, verifyPec, rxGood, 0);
    assert bad == RdcvIc(s0, cellsPerIc, ADCVA, verifyPec, rxBad, 0);
    assert RdcvCalls(ADCVA, verifyPec, rxGood, 1) == [ResetMissing(0)];
    assert RdcvCalls(ADCVA, verifyPec, rxBad, 1) == [IncrementMissing(0)];
    WriteTripleSame(held, 0);
  }
}
