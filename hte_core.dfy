/** The HTE core's objects and the consumer and provider calls that change
    them in place: the provider's chip, the consumer's descriptor and the
    core's per-provider device with its table of line records. Each call is
    one atomic step; provider hooks, callbacks, allocations and thread
    creation are inputs. */
module HteCore {
  import opened Kernel
  import opened Hte
  import opened HteEntry
  import opened HteNaming

  /** The translation function a chip carries: none yet, the core's
      default, or the provider's own. */
  datatype XlateKind = NoXlate | DefaultXlate | ProviderXlate

  /** The chip's `struct device`, reduced to its devicetree node. */
  datatype DevInfo = DevInfo(ofNode: Option<NodeId>)

  /** `struct hte_chip`: filled in by the provider; the core installs the
      default translation and links its device. */
  class Chip {
    var dev: Option<DevInfo>
    var ops: Option<HteOps>
    var nlines: u32
    var xlate: XlateKind
    var ofHteNCells: u8
    var gdev: Device?

    constructor (dev: Option<DevInfo>, ops: Option<HteOps>, nlines: u32, xlate: XlateKind, nCells: u8)
      ensures this.dev == dev && this.ops == ops && this.nlines == nlines
      ensures this.xlate == xlate && ofHteNCells == nCells && gdev == null
    {
      this.dev := dev;
      this.ops := ops;
      this.nlines := nlines;
      this.xlate := xlate;
      ofHteNCells := nCells;
      gdev := null;
    }
  }

  /** A descriptor name and whether its storage is still allocated. */
  datatype DescName = DescName(text: string, live: bool)

  /** Where a granted descriptor points: a record of a device's table. */
  datatype EntryRef = EntryRef(dev: Device, index: nat)

  /** `struct hte_ts_desc`, owned by the consumer. */
  class TsDesc {
    var conId: u32
    var name: Option<DescName>
    var hteData: Option<EntryRef>

    constructor (conId: u32, name: Option<string>)
      ensures this.conId == conId && hteData.None?
      ensures this.name == (if name.Some? then Some(DescName(name.value, true)) else None)
    {
      this.conId := conId;
      this.name := if name.Some? then Some(DescName(name.value, true)) else None;
      hteData := None;
    }
  }

  /** `struct hte_device`: the core's side of a registered chip, with one
      record per line. `moduleRefs` counts the provider module references
      the granted lines hold. */
  class Device {
    const nlines: u32
    const ei: array<TsInfo>
    var tsReq: i32
    var moduleRefs: nat
    var chip: Chip?

    /** `ts_req` is the (32-bit) number of granted lines, each granted line
        holds one module reference, and granted records are consistent. */
    ghost predicate Valid()
      reads this, ei
    {
      ei.Length == nlines as int
      && moduleRefs == CountRegistered(ei[..])
      && tsReq == Wrap32(moduleRefs)
      && TableConsistent(ei[..])
    }

    /** The zeroed allocation and the per-line initialisation loop. */
    constructor (n: u32)
      ensures Valid() && nlines == n && fresh(ei) && chip == null
      ensures forall i :: 0 <= i < ei.Length ==> ei[i] == Zeroed
      ensures tsReq == 0 && moduleRefs == 0
    {
      nlines := n;
      var table := new TsInfo[n];
      for i := 0 to n
        invariant forall k :: 0 <= k < i ==> table[k] == Zeroed
      {
        table[i] := Zeroed;
      }
      ei := table;
      tsReq := 0;
      moduleRefs := 0;
      chip := null;
      CountNone(table[..]);
    }

    /** `___hte_req_ts`: grant line `id` to a descriptor. `moduleGot` is the
        outcome of taking the provider module reference, `spawn` that of
        creating the worker, `providerRet` the provider's `request` result and
        `nameAlloc` whether the name buffer could be allocated. An id past
        the table is refused before the record is looked up. */
    method Request(desc: TsDesc, id: u32, cb: Handle, tcb: Option<Handle>, data: Option<Handle>,
                   moduleGot: bool, spawn: Spawn, providerRet: int, nameAlloc: bool)
        returns (ret: int)
      requires Valid()
      requires spawn.SpawnFailed? ==> spawn.err < 0
      modifies this, ei, desc
      ensures Valid() && chip == old(chip)
      ensures !moduleGot ==> ret == -ENODEV && ei[..] == old(ei[..]) && unchanged(this, desc)
      ensures moduleGot && id >= nlines ==> ret == -EINVAL && ei[..] == old(ei[..]) && unchanged(this, desc)
      ensures moduleGot && id < nlines ==>
                var coreName := old(desc.name).None? && nameAlloc;
                var s := RequestEntry(old(ei[id]), id, cb, tcb, data, spawn, providerRet, coreName);
                ret == s.ret && ei[..] == old(ei[..])[id := s.entry]
      ensures ret == 0 ==>
                desc.hteData == Some(EntryRef(this, id as nat))
                && tsReq == AtomicAdd(old(tsReq), 1) && moduleRefs == old(moduleRefs) + 1
                && desc.conId == old(desc.conId)
                && desc.name == (if old(desc.name).None? && nameAlloc
                                 then Some(DescName(AutoName(old(desc.conId)), true))
                                 else old(desc.name))
      ensures ret != 0 ==> unchanged(desc) && tsReq == old(tsReq) && moduleRefs == old(moduleRefs)
    {
      if !moduleGot {
        return -ENODEV;
      }
      if id >= nlines {
        return -EINVAL;
      }
      var conId := desc.conId;
      // the name is generated after the provider agreed, when the consumer
      // gave none and the buffer could be allocated
      var coreName := desc.name.None? && nameAlloc;
      ret := Grant(id, cb, tcb, data, spawn, providerRet, coreName);
      if ret == 0 {
        desc.hteData := Some(EntryRef(this, id as nat));
        if coreName {
          desc.name := Some(DescName(AutoName(conId), true));
        }
      }
    }

    /** The record and accounting part of `___hte_req_ts`, between taking
        the module reference and setting REGISTERED: the reference is given
        back on every failure, and a refused request unwinds what it stored:
        the callbacks and a worker created here. */
    method Grant(id: u32, cb: Handle, tcb: Option<Handle>, data: Option<Handle>,
                 spawn: Spawn, providerRet: int, coreName: bool) returns (ret: int)
      requires Valid() && id < nlines
      requires spawn.SpawnFailed? ==> spawn.err < 0
      modifies this, ei
      ensures Valid() && chip == old(chip)
      ensures var s := RequestEntry(old(ei[id]), id, cb, tcb, data, spawn, providerRet, coreName);
              ret == s.ret && ei[..] == old(ei[..])[id := s.entry]
      ensures ret == 0 ==> tsReq == AtomicAdd(old(tsReq), 1) && moduleRefs == old(moduleRefs) + 1
      ensures ret != 0 ==> tsReq == old(tsReq) && moduleRefs == old(moduleRefs)
    {
      ghost var s0 := ei[..];
      ghost var step := RequestEntry(ei[id], id, cb, tcb, data, spawn, providerRet, coreName);
      assert Consistent(s0[id], id as nat);
      moduleRefs := moduleRefs + 1;
      var e0 := ei[id].(xlatedId := id);
      var e := e0;
      if e.registered {
        ret := -EUSERS;
      } else {
        e := e.(cb := Some(cb), tcb := tcb);
        if tcb.Some? && spawn.SpawnFailed? {
          ret := spawn.err;
        } else {
          if tcb.Some? {
            e := e.(thread := Some(spawn.task));
          }
          ret := if providerRet < 0 then providerRet else 0;
        }
      }
      if ret != 0 {
        moduleRefs := moduleRefs - 1;
        e := e0;
      } else {
        e := e.(clData := data, hteName := coreName, registered := true);
        tsReq := AtomicAdd(tsReq, 1);
        Wrap32Add(old(moduleRefs), 1);
      }
      assert e == step.entry && ret == step.ret;
      ei[id] := e;
      PutEntry(s0, id as nat, e);
      assert ei[..] == s0[id := e];
    }

    /** `_hte_threadfn` driven by `_hte_wait_for_ts_data` for line `i`: run
        the threaded callback while a wake is pending, then exit if a stop was
        requested or go back to sleep. Returns the number of threaded
        callback calls and whether the thread exited. */
    method WorkerRun(i: nat, stopRequested: bool) returns (tcbCalls: nat, exited: bool)
      requires i < ei.Length
      modifies ei
      ensures ei[..] == old(ei[..])[i := WaitPass(old(ei[i]), stopRequested).0]
      ensures tcbCalls == (if old(ei[i].runThread) then 1 else 0)
      ensures exited == stopRequested
    {
      tcbCalls := 0;
      while true
        invariant ei[..] == old(ei[..])[i := ei[i]]
        invariant ei[i] == old(ei[i]).(runThread := ei[i].runThread)
        invariant tcbCalls + (if ei[i].runThread then 1 else 0) == (if old(ei[i].runThread) then 1 else 0)
        decreases if ei[i].runThread then 1 else 0
      {
        if stopRequested {
          if ei[i].runThread {
            ei[i] := ei[i].(runThread := false);
            tcbCalls := tcbCalls + 1;
          } else {
            return tcbCalls, true;
          }
        } else if ei[i].runThread {
          ei[i] := ei[i].(runThread := false);
          tcbCalls := tcbCalls + 1;
        } else {
          return tcbCalls, false;
        }
      }
    }

    /** The body of `hte_release_ts` once the descriptor was found to point at
        record `i` of this device. */
    method Release(desc: TsDesc, i: nat, providerRet: int) returns (ret: int, tcbCalls: nat)
      requires Valid() && i < ei.Length && desc.hteData == Some(EntryRef(this, i))
      modifies this, ei, desc
      ensures var s := ReleaseEntry(old(ei[i]), providerRet);
              ret == s.ret && ei[..] == old(ei[..])[i := s.entry]
              && tcbCalls == (if s.finalTcb then 1 else 0)
              && Valid() && chip == old(chip)
              && (ret == 0 ==>
                    desc.hteData.None? && desc.conId == old(desc.conId)
                    && desc.name == FreeCoreName(old(ei[i].hteName), old(desc.name))
                    && tsReq == AtomicAdd(old(tsReq), -1) && moduleRefs == old(moduleRefs) - 1)
              && (ret != 0 ==> unchanged(desc) && unchanged(this))
    {
      if !ei[i].registered {
        return -EUSERS, 0;
      }
      if providerRet != 0 {
        return providerRet, 0;
      }
      if ei[i].hteName {
        desc.name := FreeCoreName(true, desc.name);
      }
      desc.hteData := None;
      tcbCalls := Retire(i);
      ret := 0;
    }

    /** The table part of a successful release: the counters drop, the record
        is cleared, the worker (if any) is stopped and the module reference
        given back. */
    method Retire(i: nat) returns (tcbCalls: nat)
      requires Valid() && i < ei.Length && ei[i].registered
      modifies this, ei
      ensures var s := ReleaseEntry(old(ei[i]), 0);
              ei[..] == old(ei[..])[i := s.entry] && tcbCalls == (if s.finalTcb then 1 else 0)
      ensures Valid() && chip == old(chip)
      ensures tsReq == AtomicAdd(old(tsReq), -1) && moduleRefs == old(moduleRefs) - 1
    {
      ghost var s0 := ei[..];
      ghost var step := ReleaseEntry(ei[i], 0);
      tsReq := AtomicAdd(tsReq, -1);
      ei[i] := ei[i].(dropped := 0, sequence := 0, registered := false);
      tcbCalls := 0;
      if ei[i].tcb.Some? {
        var exited;
        tcbCalls, exited := WorkerRun(i, true);
      }
      ei[i] := ei[i].(cb := None, tcb := None, thread := None, clData := None);
      assert ei[i] == step.entry && tcbCalls == (if step.finalTcb then 1 else 0);
      PutEntry(s0, i, ei[i]);
      assert ei[..] == s0[i := ei[i]];
      moduleRefs := moduleRefs - 1;
      Wrap32Add(old(moduleRefs), -1);
    }
  }

  /** The objects a descriptor reaches: itself and, once granted, its
      device and that device's table. */
  function DescFrame(desc: TsDesc?): set<object>
    reads desc
  {
    if desc == null then {}
    else if desc.hteData.None? then {desc}
    else {desc, desc.hteData.value.dev, desc.hteData.value.dev.ei}
  }

  /** A granted descriptor points into the table of a valid device. */
  ghost predicate DescOk(desc: TsDesc?)
    reads DescFrame(desc)
  {
    desc != null && desc.hteData.Some? ==>
      desc.hteData.value.dev.Valid() && desc.hteData.value.index < desc.hteData.value.dev.ei.Length
  }

  /** `kfree(desc->name)` when the core owns the name. */
  function FreeCoreName(owned: bool, name: Option<DescName>): (r: Option<DescName>)
    ensures r.Some? <==> name.Some?
    ensures r.Some? ==> r.value.text == name.value.text
                        && r.value.live == (name.value.live && !owned)
  {
    if owned && name.Some? then Some(name.value.(live := false)) else name
  }

  /** `hte_release_ts`. `providerRet` is the provider's `release` result;
      `tcbCalls` counts the threaded callback calls the stopped worker makes
      on its way out. */
  method ReleaseTs(desc: TsDesc?, providerRet: int) returns (ret: int, tcbCalls: nat)
    requires DescOk(desc)
    modifies DescFrame(desc)
    ensures desc == null || old(desc.hteData).None? ==> ret == -EINVAL && tcbCalls == 0
    ensures desc != null && old(desc.hteData).None? ==> unchanged(desc)
    ensures desc != null && old(desc.hteData).Some? ==>
              var d := old(desc.hteData).value.dev;
              var i := old(desc.hteData).value.index;
              var s := ReleaseEntry(old(d.ei[i]), providerRet);
              ret == s.ret && d.ei[..] == old(d.ei[..])[i := s.entry]
              && tcbCalls == (if s.finalTcb then 1 else 0)
              && d.Valid() && d.chip == old(d.chip)
              && (ret == 0 ==>
                    desc.hteData.None? && desc.conId == old(desc.conId)
                    && desc.name == FreeCoreName(old(d.ei[i].hteName), old(desc.name))
                    && d.tsReq == AtomicAdd(old(d.tsReq), -1) && d.moduleRefs == old(d.moduleRefs) - 1)
              && (ret != 0 ==> unchanged(desc) && unchanged(d))
  {
    if desc == null {
      return -EINVAL, 0;
    }
    if desc.hteData.None? {
      return -EINVAL, 0;
    }
    var d := desc.hteData.value.dev;
    ret, tcbCalls := d.Release(desc, desc.hteData.value.index, providerRet);
  }

  /** The provider operations `hte_register_chip` accepts: `request` and
      `release` present, whatever else is missing. */
  predicate RegisterOpsAccepted(ops: Option<HteOps>)
  {
    ops.Some? && ops.value.request && ops.value.release
  }

  /** The chip has the hook `hte_ts_dis_en_common` calls: `enable` when
      `en`, `disable` otherwise. */
  predicate HasEnDisHook(ops: Option<HteOps>, en: bool)
  {
    ops.Some? && (if en then ops.value.enable else ops.value.disable)
  }

  /** As written, registration accepts a chip without `enable` and
      `disable`, and a consumer that disables an enabled line of it (or
      enables a disabled one) reaches for the missing hook. */
  lemma EnDisHookUnchecked(e: TsInfo)
    requires e.registered
    ensures var ops := Some(HteOps(true, true, false, false, false));
            RegisterOpsAccepted(ops) && !HasEnDisHook(ops, true) && !HasEnDisHook(ops, false)
            && (!e.disabled ==> EnDisEntry(e, false, 0).providerCalled)
            && (e.disabled ==> EnDisEntry(e, true, 0).providerCalled)
  {
  }

  /** `hte_ts_dis_en_common`; `providerRet` is the result of the provider's
      `enable` or `disable` hook, used only if the core calls it. A chip
      without the hook (or a line whose chip is gone) is refused with
      -ENOTSUPP where the hook would have been called. */
  method EnDisCommon(desc: TsDesc?, en: bool, providerRet: int) returns (ret: int)
    requires DescOk(desc)
    modifies DescFrame(desc)
    ensures desc == null || old(desc.hteData).None? ==> ret == -EINVAL
    ensures desc != null ==> unchanged(desc)
    ensures desc != null && old(desc.hteData).Some? ==>
              var d := old(desc.hteData).value.dev;
              var i := old(desc.hteData).value.index;
              var s := EnDisEntry(old(d.ei[i]), en, providerRet);
              var hook := d.chip != null && HasEnDisHook(d.chip.ops, en);
              (s.providerCalled && !hook ==> ret == -ENOTSUPP && d.ei[..] == old(d.ei[..]))
              && (!s.providerCalled || hook ==> ret == s.ret && d.ei[..] == old(d.ei[..])[i := s.entry])
              && d.Valid() && unchanged(d)
  {
    if desc == null {
      return -EINVAL;
    }
    if desc.hteData.None? {
      return -EINVAL;
    }
    var d := desc.hteData.value.dev;
    var i := desc.hteData.value.index;
    ghost var s0 := d.ei[..];
    if !d.ei[i].registered {
      return -EUSERS;
    }
    if en {
      if !d.ei[i].disabled {
        return 0;
      }
      if d.chip == null || !HasEnDisHook(d.chip.ops, true) {
        return -ENOTSUPP;
      }
      if providerRet != 0 {
        return providerRet;
      }
      d.ei[i] := d.ei[i].(disabled := false);
    } else {
      if d.ei[i].disabled {
        return 0;
      }
      if d.chip == null || !HasEnDisHook(d.chip.ops, false) {
        return -ENOTSUPP;
      }
      if providerRet != 0 {
        return providerRet;
      }
      d.ei[i] := d.ei[i].(disabled := true);
    }
    PutEntry(s0, i, d.ei[i]);
    assert d.ei[..] == s0[i := d.ei[i]];
    return 0;
  }

  /** `hte_enable_ts`. */
  method EnableTs(desc: TsDesc?, providerRet: int) returns (ret: int)
    requires DescOk(desc)
    modifies DescFrame(desc)
    ensures desc == null || old(desc.hteData).None? ==> ret == -EINVAL
    ensures desc != null && old(desc.hteData).Some? ==>
              var d := old(desc.hteData).value.dev;
              var i := old(desc.hteData).value.index;
              var s := EnDisEntry(old(d.ei[i]), true, providerRet);
              var hook := d.chip != null && HasEnDisHook(d.chip.ops, true);
              (s.providerCalled && !hook ==> ret == -ENOTSUPP && d.ei[..] == old(d.ei[..]))
              && (!s.providerCalled || hook ==> ret == s.ret && d.ei[..] == old(d.ei[..])[i := s.entry])
              && d.Valid()
  {
    ret := EnDisCommon(desc, true, providerRet);
  }

  /** `hte_disable_ts`. */
  method DisableTs(desc: TsDesc?, providerRet: int) returns (ret: int)
    requires DescOk(desc)
    modifies DescFrame(desc)
    ensures desc == null || old(desc.hteData).None? ==> ret == -EINVAL
    ensures desc != null && old(desc.hteData).Some? ==>
              var d := old(desc.hteData).value.dev;
              var i := old(desc.hteData).value.index;
              var s := EnDisEntry(old(d.ei[i]), false, providerRet);
              var hook := d.chip != null && HasEnDisHook(d.chip.ops, false);
              (s.providerCalled && !hook ==> ret == -ENOTSUPP && d.ei[..] == old(d.ei[..]))
              && (!s.providerCalled || hook ==> ret == s.ret && d.ei[..] == old(d.ei[..])[i := s.entry])
              && d.Valid()
  {
    ret := EnDisCommon(desc, false, providerRet);
  }

  // ------------------------------------------------------------------ push

  /** A registered chip and its device agree on the line count. */
  ghost predicate ChipLinked(chip: Chip)
    reads chip, chip.gdev, if chip.gdev == null then {} else {chip.gdev.ei}
  {
    chip.gdev != null ==> chip.gdev.Valid() && chip.gdev.nlines == chip.nlines
  }

  function ChipTable(chip: Chip?): set<object>
    reads chip
  {
    if chip == null || chip.gdev == null then {} else {chip.gdev.ei}
  }

  /** The line-id check of `hte_push_ts_ns` as written: an id equal to the
      line count passes. */
  predicate PushIdAcceptedAsWritten(id: u32, nlines: u32)
  {
    !(id > nlines)
  }

  /** The as-written check admits the id one past the last record. */
  lemma PushIdCheckAdmitsEnd(nlines: u32)
    ensures PushIdAcceptedAsWritten(nlines, nlines)
    ensures forall id: u32 :: PushIdAcceptedAsWritten(id, nlines) <==> id < nlines || id == nlines
  {
  }

  /** `hte_push_ts_ns`: the provider hands a timestamp for line `id`; `cbRet`
      is what the consumer's primary callback returns if it is called. The
      returned `out` is the timestamp as the callback sees it. */
  method PushTsNs(chip: Chip?, id: u32, data: Option<TsData>, cbRet: HteReturn)
      returns (st: int, out: Option<TsData>, called: bool, woke: bool)
    requires chip != null ==> ChipLinked(chip)
    modifies ChipTable(chip)
    ensures chip != null ==> ChipLinked(chip)
    ensures chip == null || data.None? || chip.gdev == null || id >= chip.nlines ==>
              st == -EINVAL && out == data && !called && !woke
    ensures chip != null && chip.gdev != null && (data.None? || id >= chip.nlines) ==>
              chip.gdev.ei[..] == old(chip.gdev.ei[..])
    ensures chip != null && chip.gdev != null && data.Some? && id < chip.nlines ==>
              var p := PushEntry(old(chip.gdev.ei[id]), cbRet);
              chip.gdev.ei[..] == old(chip.gdev.ei[..])[id := p.entry]
              && st == p.st && out == Some(data.value.(seqNo := p.seqNo))
              && called == p.called && woke == p.woke
  {
    if chip == null || data.None? || chip.gdev == null {
      return -EINVAL, data, false, false;
    }
    if id > chip.nlines {
      return -EINVAL, data, false, false;
    }
    // `id == nlines` passes the check above but names no record
    if id == chip.nlines {
      return -EINVAL, data, false, false;
    }
    var d := chip.gdev;
    ghost var s0 := d.ei[..];
    var e := d.ei[id];
    out := Some(data.value.(seqNo := e.sequence));
    d.ei[id] := e.(sequence := NextU64(e.sequence));
    if !e.registered || e.disabled {
      st, called, woke := -EINVAL, false, false;
    } else {
      st, called, woke := 0, true, false;
      if cbRet == RunThreadedCb && e.thread.Some? {
        if !d.ei[id].runThread {
          d.ei[id] := d.ei[id].(runThread := true);
          woke := true;
        }
      } else if cbRet == CbTsDropped {
        d.ei[id] := d.ei[id].(dropped := AtomicAdd(d.ei[id].dropped, 1));
      }
    }
    PutEntry(s0, id as nat, d.ei[id]);
    assert d.ei[..] == s0[id := d.ei[id]];
  }

  // ----------------------------------------------------------- clock info

  /** `hte_get_clk_src_info`. `ciGiven` says whether the caller passed a
      result structure; the provider's hook, when called, returns
      `providerRet` and reports `providerCi`, which a provider fills in only
      on success. */
  method GetClkSrcInfo(desc: TsDesc?, ciGiven: bool, providerRet: int, providerCi: ClkInfo)
      returns (ret: int, ci: Option<ClkInfo>)
    requires desc != null && desc.hteData.Some? && desc.hteData.value.dev.chip != null ==>
               desc.hteData.value.dev.chip.ops.Some?
    ensures desc == null || desc.hteData.None? || !ciGiven ==> ret == -EINVAL && ci.None?
    ensures desc != null && desc.hteData.Some? && ciGiven ==>
              var chip := desc.hteData.value.dev.chip;
              (chip == null ==> ret == -EINVAL && ci.None?)
              && (chip != null && !chip.ops.value.getClkSrcInfo ==> ret == -ENOTSUPP && ci.None?)
              && (chip != null && chip.ops.value.getClkSrcInfo ==>
                    ret == providerRet && ci == (if providerRet == 0 then Some(providerCi) else None))
    ensures ci.Some? <==> ret == 0
  {
    if desc == null || desc.hteData.None? || !ciGiven {
      return -EINVAL, None;
    }
    var chip := desc.hteData.value.dev.chip;
    if chip == null {
      return -EINVAL, None;
    }
    if !chip.ops.value.getClkSrcInfo {
      return -ENOTSUPP, None;
    }
    ret := providerRet;
    ci := if providerRet == 0 then Some(providerCi) else None;
  }

  // ---------------------------------------------------------- translation

  /** The id-storing part of `hte_simple_xlate`: with specifier cells the
      first cell becomes both the stored id and the descriptor's `con_id`
      (after the cell count checks), without them `con_id` is the id. */
  function SimpleXlateStore(nCells: u8, args: Option<seq<u32>>, conId: u32): (o: XlateOut)
    ensures o.ret == 0 || o.ret == -EINVAL
    ensures o.ret == 0 <==> args.None? || (nCells >= 1 && |args.value| == nCells as int)
    ensures o.ret == 0 ==> o.id == Some(o.conId)
    ensures o.ret == 0 && args.Some? ==> o.conId == args.value[0]
    ensures o.ret != 0 ==> o == XlateOut(-EINVAL, conId, None)
    ensures args.None? ==> o.conId == conId
  {
    if args.Some? then
      if nCells < 1 then XlateOut(-EINVAL, conId, None)
      else if |args.value| != nCells as int then XlateOut(-EINVAL, conId, None)
      else XlateOut(0, args.value[0], Some(args.value[0]))
    else XlateOut(0, conId, Some(conId))
  }

  /** `hte_simple_xlate` as written: the stored id is rejected only above
      the line count. */
  function SimpleXlateAsWritten(nCells: u8, nlines: u32, args: Option<seq<u32>>, conId: u32): (o: XlateOut)
    ensures DocumentedXlateContract(o, nlines)
  {
    var s := SimpleXlateStore(nCells, args, conId);
    if s.ret != 0 then s
    else if s.conId > nlines then s.(ret := -EINVAL)
    else s
  }

  /** The as-written translation hands out the id one past the last record. */
  lemma SimpleXlateAsWrittenOverruns(nlines: u32)
    ensures var o := SimpleXlateAsWritten(1, nlines, None, nlines);
            o.ret == 0 && o.id == Some(nlines) && !TableXlateContract(o, nlines)
  {
  }

  /** `hte_simple_xlate` with the line id checked against the table size. */
  function SimpleXlate(nCells: u8, nlines: u32, args: Option<seq<u32>>, conId: u32): (o: XlateOut)
    ensures TableXlateContract(o, nlines)
    ensures o.ret == 0 || o.ret == -EINVAL
    // the id and the descriptor's con_id always agree once stored
    ensures o.id.Some? ==> o.id.value == o.conId
    ensures o.ret == 0 <==> (args.None? || (nCells >= 1 && |args.value| == nCells as int)) && o.conId < nlines
    ensures args.None? ==> o.conId == conId
    ensures args.Some? && nCells >= 1 && |args.value| == nCells as int ==> o.conId == args.value[0]
    ensures args.Some? && !(nCells >= 1 && |args.value| == nCells as int) ==> o == XlateOut(-EINVAL, conId, None)
  {
    var s := SimpleXlateStore(nCells, args, conId);
    if s.ret != 0 then s
    else if s.conId > nlines then s.(ret := -EINVAL)
    else if s.conId == nlines then s.(ret := -EINVAL)
    else s
  }

  /** The corrected translation differs from the as-written one only on the
      id equal to the line count. */
  lemma SimpleXlateDiffersOnlyAtEnd(nCells: u8, nlines: u32, args: Option<seq<u32>>, conId: u32)
    ensures var a := SimpleXlateAsWritten(nCells, nlines, args, conId);
            var c := SimpleXlate(nCells, nlines, args, conId);
            a != c <==> a.ret == 0 && a.id == Some(nlines)
  {
  }

  /** `hte_simple_xlate` on a descriptor: stores `con_id` and, on success,
      clears `hte_data`. Returns the value and the id it stored. */
  method SimpleXlateDesc(chip: Chip, args: Option<seq<u32>>, desc: TsDesc) returns (ret: int, id: Option<u32>)
    modifies desc
    ensures var o := SimpleXlate(chip.ofHteNCells, chip.nlines, args, old(desc.conId));
            ret == o.ret && id == o.id && desc.conId == o.conId
            && desc.hteData == (if o.ret == 0 then None else old(desc.hteData))
            && desc.name == old(desc.name)
  {
    var o := SimpleXlate(chip.ofHteNCells, chip.nlines, args, desc.conId);
    desc.conId := o.conId;
    if o.ret == 0 {
      desc.hteData := None;
    }
    return o.ret, o.id;
  }
}
