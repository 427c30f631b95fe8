/** The Tegra194 timestamping engine as a provider: its register file, the
    per-slice enable registers and suspend flags, the operations behind
    `g_ops`, the FIFO reader run from the interrupt, and the sleep hooks.
    MMIO is a map from register offset to 32-bit value; the hardware FIFO
    is a sequence of entries, and reading `TESTATUS` yields its occupancy. */
module TegraHte {
  import opened Kernel
  import opened Hte
  import HteCore
  import HteRegistry
  import TegraMap
  import opened TegraBits
  import opened TegraFifo

  /** Register offsets. */
  const HTE_TECTRL: nat := 0x0
  const HTE_TECMD: nat := 0x1C
  const HTE_TESTATUS: nat := 0x20
  const HTE_SLICE0_TETEN: nat := 0x40
  const HTE_SLICE1_TETEN: nat := 0x60
  const HTE_SLICE_SIZE: nat := HTE_SLICE1_TETEN - HTE_SLICE0_TETEN

  const HTE_TECTRL_ENABLE_ENABLE: nat := 0x1
  const HTE_TECTRL_INTR_SHIFT: nat := 0x1
  const HTE_TECTRL_INTR_ENABLE: nat := 0x1
  const HTE_TECTRL_OCCU_SHIFT: nat := 0x8
  const HTE_TECMD_CMD_POP: u32 := 0x1
  const HTE_TESTATUS_OCCUPANCY_SHIFT: nat := 8
  const HTE_TESTATUS_OCCUPANCY_MASK: nat := 0xFF
  const HTE_TESRC_SLICE_SHIFT: nat := 16
  const HTE_TESRC_SLICE_DEFAULT_MASK: nat := 0xFF

  /** `sl_bit_shift = __builtin_ctz(HTE_SLICE_SIZE)`: 5, so a slice is 32 lines
      and its enable register is 32 bytes after the previous one. */
  lemma SliceShift()
    ensures Ctz(HTE_SLICE_SIZE) == 5 && Pow2(5) == 32 && Pow2(8) == 256 && Pow2(16) == 0x1_0000
  {
    assert Ctz(32) == 1 + Ctz(16) == 2 + Ctz(8) == 3 + Ctz(4) == 4 + Ctz(2) == 5 + Ctz(1);
    Pow2Add(8, 8);
  }

  /** Offset of slice `slice`'s enable register `TETEN`:
      `(slice << sl_bit_shift) + HTE_SLICE0_TETEN`. */
  function TetenReg(slice: nat): nat
  {
    slice * HTE_SLICE_SIZE + HTE_SLICE0_TETEN
  }

  /** `TECTRL` as probe programs it: `ENABLE | (INTR_ENABLE << 1) |
      (itr_thrshld << 8)`. In 32 bits the shift drops the threshold's top
      byte; the low byte is clear, so the ORs are sums. */
  function TectrlValue(thr: u32): u32
  {
    HTE_TECTRL_ENABLE_ENABLE + HTE_TECTRL_INTR_ENABLE * 2 + (thr % 0x100_0000) * 256
  }

  /** The programmed control word enables the engine and its interrupt and
      holds the occupancy threshold from bit 8 up. */
  lemma TectrlFields(thr: u32)
    ensures BitOf(TectrlValue(thr), 0) && BitOf(TectrlValue(thr), 1)
    ensures TectrlValue(thr) / 256 == thr % 0x100_0000
  {
    var t := thr % 0x100_0000;
    var q := 1 + t * 128;
    OddHalf(q);
    OddHalf(t * 64);
    assert TectrlValue(thr) == 256 * t + 3;
  }

  /** `2q + 1` is odd and halves to `q`. */
  lemma OddHalf(q: nat)
    ensures (2 * q + 1) % 2 == 1 && (2 * q + 1) / 2 == q
  {
  }

  /** A slice's saved enable value and its `HTE_SUSPEND` flag. */
  datatype HteSlice = HteSlice(rVal: u32, suspended: bool)

  /** The operations of `g_ops` that act on a line. */
  datatype LineOp = OpRequest | OpRelease | OpEnable | OpDisable

  /** `g_ops`: request and enable both run `tegra_hte_request` (set the
      line's bit), release and disable both run `tegra_hte_release`. */
  function OpSetsBit(op: LineOp): bool
  {
    op == OpRequest || op == OpEnable
  }

  /** Every hook of `g_ops` is filled in. */
  function GOps(): (ops: HteOps)
    ensures ops.request && ops.release && ops.enable && ops.disable && ops.getClkSrcInfo
  {
    HteOps(true, true, true, true, true)
  }

  /** The new enable word: the line's bit set (`en`) or cleared. */
  function EnDisValue(v: u32, bit: nat, en: bool): (r: u32)
    requires bit < 32
  {
    Pow2Of32();
    SetBitFits(v, bit);
    if en then SetBit(v, bit) else ClearBit(v, bit)
  }

  /** Return value and registers after `tegra_hte_en_dis_common`. */
  datatype EnDisOut = EnDisOut(ret: int, regs: map<nat, u32>)

  /** The effect of `tegra_hte_en_dis_common` on line `lineId`, with the
      line id checked against the line count. */
  function EnDisSpec(regs: map<nat, u32>, slices: seq<HteSlice>, nlines: u32, lineId: u32, en: bool): EnDisOut
    requires nlines as int <= 32 * |slices|
    requires forall i :: 0 <= i < |slices| ==> TetenReg(i) in regs
  {
    if lineId >= nlines then EnDisOut(-EINVAL, regs)
    else if slices[lineId / 32].suspended then EnDisOut(-EBUSY, regs)
    else
      var reg := TetenReg(lineId / 32);
      EnDisOut(0, regs[reg := EnDisValue(regs[reg], lineId % 32, en)])
  }

  /** An enable or disable that goes through writes only its slice's enable
      register, and there only the line's bit: set for enable, clear for
      disable. Otherwise it returns -EINVAL (no such line) or -EBUSY
      (slice suspended) and writes nothing. */
  lemma EnDisTouchesOneBit(regs: map<nat, u32>, slices: seq<HteSlice>, nlines: u32, lineId: u32, en: bool,
                           key: nat, j: nat)
    requires nlines as int <= 32 * |slices|
    requires forall i :: 0 <= i < |slices| ==> TetenReg(i) in regs
    ensures var o := EnDisSpec(regs, slices, nlines, lineId, en);
            (o.ret == -EINVAL <==> lineId >= nlines)
            && (o.ret == -EBUSY <==> lineId < nlines && slices[lineId / 32].suspended)
            && (o.ret == 0 || o.ret == -EINVAL || o.ret == -EBUSY)
            && (o.ret != 0 ==> o.regs == regs)
            && (o.ret == 0 ==>
                  (o.regs.Keys == regs.Keys
                   && (key != TetenReg(lineId / 32) && key in regs ==> o.regs[key] == regs[key])
                   && (BitOf(o.regs[TetenReg(lineId / 32)], j) <==>
                         if j == lineId % 32 then en else BitOf(regs[TetenReg(lineId / 32)], j))))
  {
    if lineId < nlines {
      if en {
        SetBitAt(regs[TetenReg(lineId / 32)], lineId % 32, j);
      } else {
        ClearBitAt(regs[TetenReg(lineId / 32)], lineId % 32, j);
      }
    }
  }

  /** Of two enable/disable calls on the same line the later one decides the
      register: repeating a call changes nothing more, and a release after a
      request leaves what a release alone would. */
  lemma EnDisLastWins(regs: map<nat, u32>, slices: seq<HteSlice>, nlines: u32, lineId: u32, first: bool, second: bool)
    requires nlines as int <= 32 * |slices|
    requires forall i :: 0 <= i < |slices| ==> TetenReg(i) in regs
    ensures var o1 := EnDisSpec(regs, slices, nlines, lineId, first);
            var o2 := EnDisSpec(o1.regs, slices, nlines, lineId, second);
            o2 == EnDisSpec(regs, slices, nlines, lineId, second)
  {
    if lineId < nlines && !slices[lineId / 32].suspended {
      var reg := TetenReg(lineId / 32);
      var v := regs[reg];
      var b := lineId % 32;
      Pow2Of32();
      SetBitFits(v, b);
      SetBitAt(v, b, b);
      ClearBitAt(v, b, b);
      assert ClearBit(SetBit(v, b), b) == ClearBit(v, b);
      assert SetBit(ClearBit(v, b), b) == SetBit(v, b);
    }
  }

  /** A line the corrected provider translation hands out is never refused
      by the enable path as out of range. */
  lemma XlatedLineIsEnabled(nCells: u8, aon: bool, args: Option<seq<u32>>, conId: u32,
                            regs: map<nat, u32>, slices: seq<HteSlice>, nlines: u32, en: bool)
    requires nlines as int <= 32 * |slices|
    requires forall i :: 0 <= i < |slices| ==> TetenReg(i) in regs
    requires TegraMap.TegraXlate(nCells, nlines, aon, args, conId).ret == 0
    ensures var id := TegraMap.TegraXlate(nCells, nlines, aon, args, conId).id.value;
            EnDisSpec(regs, slices, nlines, id, en).ret != -EINVAL
  {
  }

  /** The line guard of `tegra_hte_en_dis_common` as written: only ids above
      the line count are refused before the slice is looked up. */
  predicate EnDisLineAcceptedAsWritten(lineId: u32, nlines: u32)
  {
    !(lineId > nlines)
  }

  /** On a controller with `slices` slices (`nlines = slices << 5`), the
      as-written guard lets through line `nlines`, whose slice index
      `nlines >> 5` equals the length of the slice array. */
  lemma EnDisCheckAdmitsEnd(slices: u32)
    requires 0 < slices < 0x800_0000
    ensures var nlines := (slices * 32) % 0x1_0000_0000;
            EnDisLineAcceptedAsWritten(nlines, nlines) && nlines / 32 == slices as int
  {
  }

  /** What suspend leaves in the slice array: for the first `n` slices the
      enable word read from the registers and the suspend flag set. */
  function SavedSlices(regs: map<nat, u32>, slices: seq<HteSlice>, n: nat): (r: seq<HteSlice>)
    requires n <= |slices|
    requires forall i :: 0 <= i < n ==> TetenReg(i) in regs
    ensures |r| == |slices|
    ensures forall i :: 0 <= i < |r| ==> r[i] == (if i < n then HteSlice(regs[TetenReg(i)], true) else slices[i])
  {
    seq(|slices|, i requires 0 <= i < |slices| =>
      if i < n then HteSlice(regs[TetenReg(i)], true) else slices[i])
  }

  /** What resume leaves in the slice array: the suspend flag of the first
      `n` slices cleared. */
  function ResumedSlices(slices: seq<HteSlice>, n: nat): (r: seq<HteSlice>)
    ensures |r| == |slices|
    ensures forall i :: 0 <= i < |r| ==> r[i] == (if i < n then slices[i].(suspended := false) else slices[i])
  {
    seq(|slices|, i requires 0 <= i < |slices| =>
      if i < n then slices[i].(suspended := false) else slices[i])
  }

  /** The register writes of resume, in order: `TECTRL` from `ctrl`, then each
      of the first `n` enable registers from its slice's saved word. */
  function RestoreRegs(regs: map<nat, u32>, ctrl: u32, saved: seq<HteSlice>, n: nat): (r: map<nat, u32>)
    requires n <= |saved|
    ensures regs.Keys <= r.Keys && HTE_TECTRL in r
  {
    if n == 0 then regs[HTE_TECTRL := ctrl]
    else RestoreRegs(regs, ctrl, saved, n - 1)[TetenReg(n - 1) := saved[n - 1].rVal]
  }

  /** A register offset that is the enable register of one of the first `n`
      slices. */
  predicate IsTetenBelow(k: nat, n: nat)
  {
    k >= HTE_SLICE0_TETEN && (k - HTE_SLICE0_TETEN) % HTE_SLICE_SIZE == 0
    && (k - HTE_SLICE0_TETEN) / HTE_SLICE_SIZE < n
  }

  /** Enable registers below `n` are those below `n - 1` and slice `n - 1`'s. */
  lemma TetenBelowStep(k: nat, n: nat)
    requires n > 0
    ensures IsTetenBelow(k, n) <==> IsTetenBelow(k, n - 1) || k == TetenReg(n - 1)
  {
  }

  /** After resume `TECTRL` holds `ctrl`, each of the first `n` enable
      registers its slice's saved word, and every other register what it
      held before; no register is added but these. */
  lemma {:induction false} RestoreRegsAt(regs: map<nat, u32>, ctrl: u32, saved: seq<HteSlice>, n: nat, k: nat)
    requires n <= |saved|
    ensures var r := RestoreRegs(regs, ctrl, saved, n);
            (k in r <==> k in regs || k == HTE_TECTRL || IsTetenBelow(k, n))
            && (k == HTE_TECTRL ==> r[k] == ctrl)
            && (IsTetenBelow(k, n) ==> r[k] == saved[(k - HTE_SLICE0_TETEN) / HTE_SLICE_SIZE].rVal)
            && (k in regs && k != HTE_TECTRL && !IsTetenBelow(k, n) ==> r[k] == regs[k])
  {
    if n > 0 {
      RestoreRegsAt(regs, ctrl, saved, n - 1, k);
      TetenBelowStep(k, n);
    }
  }

  /** Suspend followed by resume restores `TECTRL` and the enable register of
      every slice to what suspend read, whatever the registers held in
      between (the engine may lose its state while asleep). */
  lemma SuspendResumeRestores(before: map<nat, u32>, between: map<nat, u32>, slices: seq<HteSlice>, n: nat)
    requires n <= |slices|
    requires HTE_TECTRL in before && forall i :: 0 <= i < n ==> TetenReg(i) in before
    requires forall i :: 0 <= i < n ==> TetenReg(i) in between
    ensures var saved := SavedSlices(before, slices, n);
            var after := RestoreRegs(between, before[HTE_TECTRL], saved, n);
            after[HTE_TECTRL] == before[HTE_TECTRL]
            && (forall i :: 0 <= i < n ==> after[TetenReg(i)] == before[TetenReg(i)])
            && (forall i :: 0 <= i < n ==> !ResumedSlices(saved, n)[i].suspended)
  {
    var saved := SavedSlices(before, slices, n);
    RestoreRegsAt(between, before[HTE_TECTRL], saved, n, HTE_TECTRL);
    forall i | 0 <= i < n
      ensures RestoreRegs(between, before[HTE_TECTRL], saved, n)[TetenReg(i)] == before[TetenReg(i)]
    {
      RestoreRegsAt(between, before[HTE_TECTRL], saved, n, TetenReg(i));
      assert IsTetenBelow(TetenReg(i), n);
      assert (TetenReg(i) - HTE_SLICE0_TETEN) / HTE_SLICE_SIZE == i;
    }
  }

  /** If nothing touched the registers while asleep, suspend and resume
      leave the register file exactly as it was. */
  lemma SuspendResumeIdentity(regs: map<nat, u32>, slices: seq<HteSlice>, n: nat)
    requires n <= |slices|
    requires HTE_TECTRL in regs && forall i :: 0 <= i < n ==> TetenReg(i) in regs
    ensures RestoreRegs(regs, regs[HTE_TECTRL], SavedSlices(regs, slices, n), n) == regs
  {
    var saved := SavedSlices(regs, slices, n);
    var after := RestoreRegs(regs, regs[HTE_TECTRL], saved, n);
    forall k | k in after
      ensures k in regs && after[k] == regs[k]
    {
      RestoreRegsAt(regs, regs[HTE_TECTRL], saved, n, k);
      if IsTetenBelow(k, n) {
        var i := (k - HTE_SLICE0_TETEN) / HTE_SLICE_SIZE;
        assert k == TetenReg(i);
      }
    }
    forall k | k in regs
      ensures k in after
    {
      RestoreRegsAt(regs, regs[HTE_TECTRL], saved, n, k);
    }
  }

  /** While the slices are suspended every enable or disable of an existing
      line is refused with -EBUSY and writes nothing; once resumed, none is. */
  lemma SuspendBlocksEnDis(regs: map<nat, u32>, slices: seq<HteSlice>, nlines: u32, lineId: u32, en: bool)
    requires nlines as int <= 32 * |slices| && nlines % 32 == 0
    requires forall i :: 0 <= i < |slices| ==> TetenReg(i) in regs
    requires lineId < nlines
    ensures var n := nlines / 32;
            var saved := SavedSlices(regs, slices, n);
            EnDisSpec(regs, saved, nlines, lineId, en) == EnDisOut(-EBUSY, regs)
            && EnDisSpec(regs, ResumedSlices(saved, n), nlines, lineId, en).ret == 0
  {
  }

  /** `TESTATUS` for a FIFO holding `n` entries: the occupancy in bits 8-15. */
  function StatusWord(n: nat): u32
    requires n <= HTE_TESTATUS_OCCUPANCY_MASK
  {
    n * 256
  }

  /** `(status >> HTE_TESTATUS_OCCUPANCY_SHIFT) & HTE_TESTATUS_OCCUPANCY_MASK`. */
  function OccupancyOf(status: u32): nat
  {
    (status / Pow2(HTE_TESTATUS_OCCUPANCY_SHIFT)) % (HTE_TESTATUS_OCCUPANCY_MASK + 1)
  }

  /** The driver reads back the number of entries the status word reports. */
  lemma OccupancyDecodes(n: nat)
    requires n <= HTE_TESTATUS_OCCUPANCY_MASK
    ensures OccupancyOf(StatusWord(n)) == n
  {
    SliceShift();
  }

  /** Moving one pushed event from the pending part to the emitted part. */
  lemma AppendOne(done: seq<TsEvent>, el: TsEvent, rest: seq<TsEvent>)
    ensures done + ([el] + rest) == (done + [el]) + rest
  {
  }

  /** The body of the FIFO loop in `tegra_hte_read_fifo` for one entry:
      one timestamp per bit of `pv ^ cv`, lowest bit first, each cleared
      from `acv` once pushed. */
  method DecodeEntry(head: FifoEntry) returns (events: seq<TsEvent>)
    ensures events == EntryEvents(head)
  {
    var tsh, tsl := head.tsh, head.tsl;
    var tsc := tsh * Pow2(32) + tsl;
    // `tsc << HTE_TS_NS_SHIFT` is the same for every line of the entry
    var tscNs: u64 := (tsc * Pow2(TsNsShift())) % U64_LIMIT;
    assert tscNs == TscNs(head);
    var src := head.src;
    var slice := (src / Pow2(HTE_TESRC_SLICE_SHIFT)) % (HTE_TESRC_SLICE_DEFAULT_MASK + 1);
    assert slice == SliceOf(head.src);
    var pv, cv := head.pv, head.cv;
    var acv: nat := Xor(pv, cv);
    assert acv < Pow2(32) by {
      Pow2Of32();
      XorBound(pv, cv, 32);
    }
    events := [];
    while acv != 0
      invariant acv < Pow2(32)
      invariant EntryEvents(head) == events + BitEvents(head, acv, 0)
      decreases acv
    {
      var bitIndex := Ctz(acv);
      assert bitIndex < 32 by {
        CtzBound(acv, 32);
      }
      var dir := if BitOf(pv, bitIndex) then RisingEdge else FallingEdge;
      var lineId := bitIndex + slice * 32;
      var el := TsEvent(lineId, dir, tscNs);
      assert ClearBit(acv, bitIndex) < acv
          && EntryEvents(head) == (events + [el]) + BitEvents(head, ClearBit(acv, bitIndex), 0) by {
        PopLowest(head, acv);
        assert el == EventAt(head, bitIndex);
        AppendOne(events, el, BitEvents(head, ClearBit(acv, bitIndex), 0));
      }
      events := events + [el];
      acv := ClearBit(acv, bitIndex);
    }
    BitEventsNone(head, 0);
  }

  /** `struct tegra_hte_soc` with its chip and register file. */
  class TegraHteSoc {
    /** `line_map`: the AON instance has the GPIO table, the LIC none. */
    const aon: bool
    const itrThrshld: u32
    /** `sl[]`: one record per slice. */
    const sl: array<HteSlice>
    /** The `hte_chip` probe fills in and hands to the core. */
    const chip: HteCore.Chip
    /** `TECTRL` as saved by suspend. */
    var confRval: u32
    /** The register file, by offset. */
    var regs: map<nat, u32>
    /** The entries waiting in the hardware FIFO, oldest first. */
    var fifo: seq<FifoEntry>

    ghost predicate Valid()
      reads this, sl, chip
    {
      chip.nlines as int <= 32 * sl.Length && chip.nlines % 32 == 0
      && HTE_TECTRL in regs
      && (forall i :: 0 <= i < sl.Length ==> TetenReg(i) in regs)
      && |fifo| <= HTE_TESTATUS_OCCUPANCY_MASK
    }

    /** `tegra_hte_probe` once the platform resources are in hand: `slices`
        from the devicetree, the optional `int-threshold` (default 1), the
        register file `hw` as found. Sets `nlines = slices << 5` in 32 bits,
        fills in the chip with `g_ops`, the provider translation and one
        specifier cell, clears every slice's flags and programs `TECTRL`. */
    constructor (aon: bool, ofNode: NodeId, thrProp: Option<u32>, slices: u32, hw: map<nat, u32>,
                 pending: seq<FifoEntry>)
      requires HTE_TECTRL in hw && forall i :: 0 <= i < slices ==> TetenReg(i) in hw
      requires |pending| <= HTE_TESTATUS_OCCUPANCY_MASK
      ensures Valid() && fresh(sl) && fresh(chip)
      ensures this.aon == aon && itrThrshld == (if thrProp.Some? then thrProp.value else 1)
      ensures sl.Length == slices as int && forall i :: 0 <= i < sl.Length ==> sl[i] == HteSlice(0, false)
      ensures chip.nlines == (slices * 32) % 0x1_0000_0000 && chip.ops == Some(GOps())
      ensures chip.xlate == HteCore.ProviderXlate && chip.ofHteNCells == 1 && chip.gdev == null
      ensures chip.dev == Some(HteCore.DevInfo(Some(ofNode)))
      ensures regs == hw[HTE_TECTRL := TectrlValue(itrThrshld)] && fifo == pending && confRval == 0
    {
      this.aon := aon;
      itrThrshld := if thrProp.Some? then thrProp.value else 1;
      sl := new HteSlice[slices](_ => HteSlice(0, false));
      chip := new HteCore.Chip(Some(HteCore.DevInfo(Some(ofNode))), Some(GOps()),
                               (slices * 32) % 0x1_0000_0000, HteCore.ProviderXlate, 1);
      confRval := 0;
      regs := hw;
      fifo := pending;
      new;
      for i := 0 to slices
        modifies sl
        invariant forall k :: 0 <= k < sl.Length ==> sl[k] == HteSlice(0, false)
      {
        sl[i] := sl[i].(suspended := false);
      }
      regs := regs[HTE_TECTRL := TectrlValue(itrThrshld)];
    }

    /** `tegra_hte_en_dis_common`. The guard as written refuses only ids above
        the line count; the id equal to it is refused next, because its slice
        index would be one past the slice array. */
    method EnDisCommon(lineId: u32, en: bool) returns (ret: int)
      requires Valid()
      modifies this`regs
      ensures Valid()
      ensures EnDisOut(ret, regs) == EnDisSpec(old(regs), sl[..], chip.nlines, lineId, en)
    {
      SliceShift();
      var slBitShift := Ctz(HTE_SLICE_SIZE);
      if lineId > chip.nlines {
        return -EINVAL;
      }
      if lineId == chip.nlines {
        return -EINVAL;
      }
      var slice := lineId / Pow2(slBitShift);
      var lineBit := lineId % HTE_SLICE_SIZE;
      var reg := slice * Pow2(slBitShift) + HTE_SLICE0_TETEN;
      if sl[slice].suspended {
        return -EBUSY;
      }
      assert slice < sl.Length && reg == TetenReg(slice);
      var val := regs[reg];
      Pow2Of32();
      SetBitFits(val, lineBit);
      if en {
        val := SetBit(val, lineBit);
      } else {
        val := ClearBit(val, lineBit);
      }
      regs := regs[reg := val];
      ret := 0;
    }

    /** `tegra_hte_request`: enable the line's bit. */
    method Request(lineId: u32) returns (ret: int)
      requires Valid()
      modifies this`regs
      ensures Valid()
      ensures EnDisOut(ret, regs) == EnDisSpec(old(regs), sl[..], chip.nlines, lineId, true)
    {
      ret := EnDisCommon(lineId, true);
    }

    /** `tegra_hte_release`: clear the line's bit. */
    method Release(lineId: u32) returns (ret: int)
      requires Valid()
      modifies this`regs
      ensures Valid()
      ensures EnDisOut(ret, regs) == EnDisSpec(old(regs), sl[..], chip.nlines, lineId, false)
    {
      ret := EnDisCommon(lineId, false);
    }

    /** A line operation called through `g_ops`. */
    method CallOp(op: LineOp, lineId: u32) returns (ret: int)
      requires Valid()
      modifies this`regs
      ensures Valid()
      ensures EnDisOut(ret, regs) == EnDisSpec(old(regs), sl[..], chip.nlines, lineId, OpSetsBit(op))
    {
      match op
      case OpRequest => ret := Request(lineId);
      case OpEnable => ret := Request(lineId);
      case OpRelease => ret := Release(lineId);
      case OpDisable => ret := Release(lineId);
    }

    /** `tegra_hte_read_fifo`: while the FIFO is not empty, read the head
        entry, push one timestamp per changed bit, lowest bit first, then pop
        the entry. */
    method ReadFifo() returns (events: seq<TsEvent>, pops: nat)
      requires |fifo| <= HTE_TESTATUS_OCCUPANCY_MASK
      modifies this`regs, this`fifo
      ensures events == FifoEvents(old(fifo))
      ensures pops == |old(fifo)| && fifo == []
      ensures regs == (if pops == 0 then old(regs) else old(regs)[HTE_TECMD := HTE_TECMD_CMD_POP])
    {
      ghost var regs0, fifo0 := regs, fifo;
      events, pops := [], 0;
      OccupancyDecodes(|fifo|);
      while OccupancyOf(StatusWord(|fifo|)) != 0
        invariant FifoEvents(fifo0) == events + FifoEvents(fifo)
        invariant pops + |fifo| == |fifo0|
        invariant OccupancyOf(StatusWord(|fifo|)) == |fifo|
        invariant pops == 0 ==> regs == regs0
        invariant pops > 0 ==> regs == regs0[HTE_TECMD := HTE_TECMD_CMD_POP]
        decreases |fifo|
      {
        var pushed := DecodeEntry(fifo[0]);
        assert FifoEvents(fifo) == pushed + FifoEvents(fifo[1..]);
        events := events + pushed;
        regs := regs[HTE_TECMD := HTE_TECMD_CMD_POP];
        fifo := fifo[1..];
        pops := pops + 1;
        OccupancyDecodes(|fifo|);
      }
    }

    /** `tegra_hte_isr`: drain the FIFO and report the interrupt handled. */
    method Isr() returns (handled: bool, events: seq<TsEvent>)
      requires Valid()
      modifies this`regs, this`fifo
      ensures Valid() && handled
      ensures events == FifoEvents(old(fifo)) && fifo == []
      ensures regs == (if old(fifo) == [] then old(regs) else old(regs)[HTE_TECMD := HTE_TECMD_CMD_POP])
    {
      var pops;
      events, pops := ReadFifo();
      handled := true;
    }

    /** `tegra_hte_suspend_late`: save `TECTRL` and, for each of the
        `nlines >> 5` slices, its enable register, and mark the slice
        suspended. */
    method SuspendLate()
      requires Valid()
      modifies this`confRval, sl
      ensures Valid()
      ensures confRval == regs[HTE_TECTRL]
      ensures sl[..] == SavedSlices(regs, old(sl[..]), chip.nlines / 32)
    {
      var slices := chip.nlines / 32;
      confRval := regs[HTE_TECTRL];
      for i := 0 to slices
        modifies sl
        invariant forall k :: 0 <= k < sl.Length ==>
                    sl[k] == (if k < i then HteSlice(regs[TetenReg(k)], true) else old(sl[k]))
      {
        sl[i] := sl[i].(rVal := regs[TetenReg(i)]);
        sl[i] := sl[i].(suspended := true);
      }
    }

    /** `tegra_hte_resume_early`: write `TECTRL` back, then each slice's saved
        enable word, and clear each slice's suspend flag. */
    method ResumeEarly()
      requires Valid()
      modifies this`regs, sl
      ensures Valid()
      ensures regs == RestoreRegs(old(regs), confRval, old(sl[..]), chip.nlines / 32)
      ensures sl[..] == ResumedSlices(old(sl[..]), chip.nlines / 32)
    {
      ghost var regs0, saved := regs, sl[..];
      var slices := chip.nlines / 32;
      regs := regs[HTE_TECTRL := confRval];
      for i := 0 to slices
        invariant regs == RestoreRegs(regs0, confRval, saved, i)
        invariant forall k :: 0 <= k < sl.Length ==>
                    sl[k] == (if k < i then saved[k].(suspended := false) else saved[k])
      {
        regs := regs[TetenReg(i) := sl[i].rVal];
        sl[i] := sl[i].(suspended := false);
      }
    }

    /** `tegra_hte_remove`: the engine is switched off, then `chip` (the
        provider's `gs->chip`) is unregistered from `reg` and that result is
        returned. */
    method Remove(reg: HteRegistry.Registry, chip: HteCore.Chip?) returns (ret: int)
      requires Valid() && reg.Valid()
      requires chip != null ==> chip.gdev != null && chip.gdev in reg.devices
      modifies this`regs, reg, if chip != null then {chip.gdev} else {}
      ensures Valid() && reg.Valid()
      ensures regs == old(regs)[HTE_TECTRL := 0]
      ensures chip == null ==> ret == -EINVAL && unchanged(reg)
      ensures chip != null ==>
                var g := old(chip.gdev);
                ret == 0 && g.chip == null && g !in reg.devices
                && (exists k :: 0 <= k < |old(reg.devices)| && old(reg.devices)[k] == g
                                && reg.devices == old(reg.devices)[..k] + old(reg.devices)[k + 1..])
    {
      regs := regs[HTE_TECTRL := 0];
      ret := reg.UnregisterChip(chip);
    }
  }
}
