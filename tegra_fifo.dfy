/** What one entry of the Tegra194 engine's timestamp FIFO means, and the
    clock behind it. An entry holds the 64-bit tick count (`TETSCH:TETSCL`),
    the source slice (`TESRC` bits 16-23) and the slice's previous and
    current line values (`TEPCV`, `TECCV`). Every bit where the two values
    differ is one timestamped edge, reported lowest bit first. */
module TegraFifo {
  import opened Kernel
  import opened Hte
  import opened TegraBits

  /** `HTE_TS_CLK_RATE_HZ`: the engine counts at 31.25 MHz. */
  const HTE_TS_CLK_RATE_HZ: u64 := 31_250_000

  /** `HTE_CLK_RATE_NS`: one tick lasts 32 ns. */
  const HTE_CLK_RATE_NS: nat := 32

  /** `HTE_TS_NS_SHIFT`: `__builtin_ctz(HTE_CLK_RATE_NS)`. */
  function TsNsShift(): nat
  {
    Ctz(HTE_CLK_RATE_NS)
  }

  /** `tegra_hte_clk_src_info`: always succeeds and reports the tick rate on
      the monotonic clock. */
  function ClkSrcInfo(): (r: (int, ClkInfo))
    ensures r.0 == 0 && r.1.clockType == CLOCK_MONOTONIC
  {
    (0, ClkInfo(HTE_TS_CLK_RATE_HZ, CLOCK_MONOTONIC))
  }

  /** Shifting a tick count by `HTE_TS_NS_SHIFT` turns it into nanoseconds of
      the clock `ClkSrcInfo` reports: the shift multiplies by 32, and 32 ns
      is one period of a 31.25 MHz clock. */
  lemma TicksToNanoseconds(ticks: nat)
    ensures Pow2(TsNsShift()) == HTE_CLK_RATE_NS
    ensures ticks * Pow2(TsNsShift()) * ClkSrcInfo().1.hz == ticks * 1_000_000_000
  {
    assert Ctz(32) == 5 by {
      assert Ctz(32) == 1 + Ctz(16) == 2 + Ctz(8) == 3 + Ctz(4) == 4 + Ctz(2) == 5 + Ctz(1);
    }
    assert Pow2(5) == 32;
  }

  /** The registers read for one FIFO entry. */
  datatype FifoEntry = FifoEntry(tsh: u32, tsl: u32, src: u32, pv: u32, cv: u32)

  /** One pushed timestamp: line id, edge direction and time in ns. */
  datatype TsEvent = TsEvent(lineId: u32, dir: HteDir, tsc: u64)

  /** `(src >> HTE_TESRC_SLICE_SHIFT) & HTE_TESRC_SLICE_DEFAULT_MASK`. */
  function SliceOf(src: u32): (s: nat)
    ensures s < 256
  {
    (src / Pow2(16)) % 256
  }

  /** `((u64)tsh << 32) | tsl`: the halves do not overlap, so the OR is a sum. */
  function Tsc(e: FifoEntry): nat
  {
    e.tsh * Pow2(32) + e.tsl
  }

  /** `tsc << HTE_TS_NS_SHIFT` in 64-bit arithmetic: the high bits shifted
      out are lost. */
  function TscNs(e: FifoEntry): u64
  {
    (Tsc(e) * Pow2(TsNsShift())) % U64_LIMIT
  }

  /** The event for changed bit `b`: line `b + (slice << 5)`, rising when the
      bit is set in the previous value `pv`. */
  function EventAt(e: FifoEntry, b: nat): (ev: TsEvent)
    requires b < 32
    ensures ev.lineId == SliceOf(e.src) * 32 + b
    ensures ev.dir == RisingEdge <==> BitOf(e.pv, b)
  {
    TsEvent(b + SliceOf(e.src) * 32, if BitOf(e.pv, b) then RisingEdge else FallingEdge, TscNs(e))
  }

  /** The events for the set bits of `acv` from bit `i` up, lowest first. */
  function BitEvents(e: FifoEntry, acv: nat, i: nat): seq<TsEvent>
    requires i <= 32
    decreases 32 - i
  {
    if i == 32 then []
    else (if BitOf(acv, i) then [EventAt(e, i)] else []) + BitEvents(e, acv, i + 1)
  }

  /** The events one FIFO entry stands for: one per bit of `pv ^ cv`. */
  function EntryEvents(e: FifoEntry): seq<TsEvent>
  {
    BitEvents(e, Xor(e.pv, e.cv), 0)
  }

  /** The events of a whole FIFO, oldest entry first. */
  function FifoEvents(f: seq<FifoEntry>): seq<TsEvent>
  {
    if f == [] then [] else EntryEvents(f[0]) + FifoEvents(f[1..])
  }

  /** Bits that are clear contribute nothing. */
  lemma {:induction false} BitEventsSkip(e: FifoEntry, acv: nat, i: nat, k: nat)
    requires i <= k <= 32
    requires forall j :: i <= j < k ==> !BitOf(acv, j)
    ensures BitEvents(e, acv, i) == BitEvents(e, acv, k)
    decreases k - i
  {
    if i < k {
      BitEventsSkip(e, acv, i + 1, k);
    }
  }

  /** Values that agree on bits `i..31` give the same events from `i` on. */
  lemma {:induction false} BitEventsAgree(e: FifoEntry, a: nat, b: nat, i: nat)
    requires i <= 32
    requires forall j :: i <= j < 32 ==> BitOf(a, j) == BitOf(b, j)
    ensures BitEvents(e, a, i) == BitEvents(e, b, i)
    decreases 32 - i
  {
    if i < 32 {
      BitEventsAgree(e, a, b, i + 1);
    }
  }

  /** Once no bit is left there is nothing more to push. */
  lemma BitEventsNone(e: FifoEntry, i: nat)
    requires i <= 32
    ensures BitEvents(e, 0, i) == []
  {
    forall j | i <= j < 32
      ensures !BitOf(0, j)
    {
      NoBitOfZero(j);
    }
    BitEventsSkip(e, 0, i, 32);
  }

  /** The step the decoding loop takes: the lowest set bit's event comes
      first, and clearing that bit (`acv &= ~BIT(bit_index)`) leaves the
      events of the other bits. The value left is smaller, so the loop ends. */
  lemma PopLowest(e: FifoEntry, acv: nat)
    requires 0 < acv < Pow2(32)
    ensures Ctz(acv) < 32
    ensures BitEvents(e, acv, 0) == [EventAt(e, Ctz(acv))] + BitEvents(e, ClearBit(acv, Ctz(acv)), 0)
    ensures ClearBit(acv, Ctz(acv)) < acv
  {
    var b := Ctz(acv);
    CtzBound(acv, 32);
    forall j | 0 <= j < b
      ensures !BitOf(acv, j)
    {
      CtzLowest(acv, j);
    }
    BitEventsSkip(e, acv, 0, b);
    var c := ClearBit(acv, b);
    forall j | 0 <= j < b + 1
      ensures !BitOf(c, j)
    {
      ClearBitAt(acv, b, j);
      CtzLowest(acv, j);
    }
    BitEventsSkip(e, c, 0, b + 1);
    forall j | b + 1 <= j < 32
      ensures BitOf(c, j) == BitOf(acv, j)
    {
      ClearBitAt(acv, b, j);
    }
    BitEventsAgree(e, c, acv, b + 1);
  }

  /** Bit `b`'s event is among those from bit `i` up exactly when `b` is a
      set bit at or above `i`. */
  lemma {:induction false} BitEventsMembers(e: FifoEntry, acv: nat, i: nat, b: nat)
    requires i <= 32 && b < 32
    ensures EventAt(e, b) in BitEvents(e, acv, i) <==> i <= b && BitOf(acv, b)
    decreases 32 - i
  {
    if i < 32 {
      BitEventsMembers(e, acv, i + 1, b);
    }
  }

  /** The events from bit `i` up lie on lines `i..31` of the entry's slice. */
  lemma {:induction false} BitEventsInSlice(e: FifoEntry, acv: nat, i: nat)
    requires i <= 32
    ensures forall ev :: ev in BitEvents(e, acv, i) ==> SliceOf(e.src) * 32 + i <= ev.lineId < SliceOf(e.src) * 32 + 32
    decreases 32 - i
  {
    if i < 32 {
      BitEventsInSlice(e, acv, i + 1);
    }
  }

  /** Line ids strictly ascending along the sequence. */
  predicate AscendingLines(s: seq<TsEvent>)
  {
    forall k, l :: 0 <= k < l < |s| ==> s[k].lineId < s[l].lineId
  }

  /** Putting an event below every line of an ascending sequence in front
      keeps it ascending. */
  lemma PrependAscending(ev: TsEvent, rest: seq<TsEvent>)
    requires AscendingLines(rest)
    requires forall r :: r in rest ==> ev.lineId < r.lineId
    ensures AscendingLines([ev] + rest)
  {
    var s := [ev] + rest;
    forall k, l | 0 <= k < l < |s|
      ensures s[k].lineId < s[l].lineId
    {
      assert s[l] == rest[l - 1] && rest[l - 1] in rest;
      if k > 0 {
        assert s[k] == rest[k - 1];
      }
    }
  }

  /** Events come out in strictly ascending line order. */
  lemma {:induction false} BitEventsAscending(e: FifoEntry, acv: nat, i: nat)
    requires i <= 32
    ensures AscendingLines(BitEvents(e, acv, i))
    decreases 32 - i
  {
    if i < 32 {
      BitEventsAscending(e, acv, i + 1);
      if BitOf(acv, i) {
        BitEventsInSlice(e, acv, i + 1);
        PrependAscending(EventAt(e, i), BitEvents(e, acv, i + 1));
      }
    }
  }

  /** What an entry reports: exactly the lines whose bit differs between the
      previous and current value, each once, in ascending order, all in the
      entry's slice, rising when the previous value had the bit set, all
      stamped with the entry's time in ns. */
  lemma EntryEventsExact(e: FifoEntry, b: nat)
    requires b < 32
    ensures EventAt(e, b) in EntryEvents(e) <==> BitOf(e.pv, b) != BitOf(e.cv, b)
    ensures AscendingLines(EntryEvents(e))
    ensures forall ev :: ev in EntryEvents(e) ==>
              ev.lineId / 32 == SliceOf(e.src) && ev == EventAt(e, ev.lineId % 32)
  {
    BitEventsMembers(e, Xor(e.pv, e.cv), 0, b);
    XorBit(e.pv, e.cv, b);
    BitEventsAscending(e, Xor(e.pv, e.cv), 0);
    forall ev | ev in EntryEvents(e)
      ensures ev.lineId / 32 == SliceOf(e.src) && ev == EventAt(e, ev.lineId % 32)
    {
      EntryEventShape(e, Xor(e.pv, e.cv), 0, ev);
    }
  }

  lemma {:induction false} EntryEventShape(e: FifoEntry, acv: nat, i: nat, ev: TsEvent)
    requires i <= 32 && ev in BitEvents(e, acv, i)
    ensures exists b :: i <= b < 32 && ev == EventAt(e, b)
    ensures ev.lineId / 32 == SliceOf(e.src) && ev == EventAt(e, ev.lineId % 32)
    decreases 32 - i
  {
    if ev == EventAt(e, i) && BitOf(acv, i) {
      assert ev.lineId == SliceOf(e.src) * 32 + i;
    } else {
      EntryEventShape(e, acv, i + 1, ev);
    }
  }
}
