/** The core's global list of HTE devices (`hte_devices`): registering and
    removing a provider chip, finding the device of a devicetree node, and
    the two consumer request paths that go through that lookup. */
module HteRegistry {
  import opened Kernel
  import opened Hte
  import opened HteEntry
  import opened HteCore
  import opened HteNaming

  /** A device and its chip point at each other and agree on the line count;
      a registered chip has its operations and a translation function. */
  ghost predicate Linked(d: Device)
    reads d, d.chip
  {
    d.chip != null ==>
      d.chip.gdev == d && d.chip.nlines == d.nlines && d.chip.xlate != NoXlate && d.chip.ops.Some?
  }

  /** The argument check `hte_req_ts_by_hte_name` makes as written: the
      consumer's node, the property name and the descriptor, but not the
      primary callback. */
  predicate ByNameArgsAcceptedAsWritten(consumerOk: bool, descGiven: bool, cb: Option<Handle>)
  {
    consumerOk && descGiven
  }

  /** As written, a by-name request with a NULL primary callback passes the
      argument check and is granted: the line is REGISTERED with no
      callback, and the next push on it calls one. */
  lemma ByNameNullCallbackRegisters(e: TsInfo, id: u32, cbRet: HteReturn)
    requires !e.registered && !e.disabled
    ensures ByNameArgsAcceptedAsWritten(true, true, None)
    ensures var q := RequestEntryAsWritten(e, id, None, None, None, Spawned(0), 0, false);
            q.ret == 0 && q.entry.registered && q.entry.cb.None?
            && !Consistent(q.entry, id)
            && PushEntry(q.entry, cbRet).called
  {
  }

  /** What `___hte_req_ts` as written looks up: `ei[xlated_id]` for every id
      a successful translation produced, with no bound check. */
  predicate ReqIdLookedUpAsWritten(o: XlateOut)
  {
    o.ret >= 0 && o.id.Some?
  }

  /** A translation that keeps the documented contract ("0 to nlines") may
      hand `___hte_req_ts` the id `nlines`, which as written is looked up in
      a table of `nlines` records. */
  lemma DocumentedXlateReachesPastTable(nlines: u32)
    ensures var o := XlateOut(0, nlines, Some(nlines));
            DocumentedXlateContract(o, nlines) && !TableXlateContract(o, nlines)
            && ReqIdLookedUpAsWritten(o) && o.id.value >= nlines
  {
  }

  /** The device's chip sits on devicetree node `np` (the test of
      `of_node_to_htedevice`). */
  predicate Matches(d: Device, np: NodeId)
    reads d, d.chip
  {
    d.chip != null && d.chip.dev.Some? && d.chip.dev.value.ofNode == Some(np)
  }

  /** Index of the first device of `ds` whose chip sits on `np`, or `|ds|`
      when none does. */
  ghost function FirstMatch(ds: seq<Device>, np: NodeId): (k: nat)
    reads set d | d in ds, set d | d in ds :: d.chip
    ensures k <= |ds|
    ensures k < |ds| ==> Matches(ds[k], np)
    ensures forall j :: 0 <= j < k ==> !Matches(ds[j], np)
    decreases |ds|
  {
    if ds == [] then 0
    else if Matches(ds[0], np) then 0
    else 1 + FirstMatch(ds[1..], np)
  }

  /** The outcome of the chip's translation for consumer id `conId`: the
      core's default translation, or the provider's outcome `p`. */
  function Translated(xlate: XlateKind, nCells: u8, nlines: u32, args: Option<seq<u32>>, conId: u32,
                      p: XlateOut): XlateOut
  {
    if xlate == DefaultXlate then SimpleXlate(nCells, nlines, args, conId) else p
  }

  /** `desc` holds the line of `g` that the chip's translation picks for
      `args` and the consumer id `conId0`, granted with these callbacks and
      client data, and `ts_req` has grown by one from `tsReq0`. */
  ghost predicate GrantedTranslated(g: Device, desc: TsDesc, args: Option<seq<u32>>, conId0: u32,
                                    providerXlate: XlateOut, cb: Option<Handle>, tcb: Option<Handle>,
                                    data: Option<Handle>, tsReq0: i32)
    reads g, g.chip, g.ei, desc
  {
    g.chip != null
    && var o := Translated(g.chip.xlate, g.chip.ofHteNCells, g.chip.nlines, args, conId0, providerXlate);
       o.id.Some? && o.id.value as int < g.ei.Length
       && desc.hteData == Some(EntryRef(g, o.id.value as nat))
       && g.ei[o.id.value].registered && g.ei[o.id.value].cb == cb
       && g.ei[o.id.value].tcb == tcb && g.ei[o.id.value].clData == data
       && g.tsReq == AtomicAdd(tsReq0, 1)
  }

  class Registry {
    var devices: seq<Device>

    ghost predicate Valid()
      reads this, set d | d in devices, set d | d in devices :: d.chip
    {
      (forall i, j :: 0 <= i < j < |devices| ==> devices[i] != devices[j])
      && (forall d1, d2 :: d1 in devices && d2 in devices && d1 != d2 ==> d1.ei != d2.ei)
      && forall d :: d in devices ==> Linked(d)
    }

    constructor ()
      ensures Valid() && devices == []
    {
      devices := [];
    }

    /** `hte_register_chip`. `allocOk` is the outcome of allocating the
        device with its table. On success the new device is appended to the
        list. */
    method RegisterChip(chip: Chip?, allocOk: bool) returns (ret: int, gdev: Device?)
      requires Valid()
      requires chip != null ==> forall d :: d in devices ==> d.chip != chip
      modifies this, chip
      ensures Valid()
      ensures chip == null || old(chip.dev).None? || old(chip.dev).value.ofNode.None? ==>
                ret == -EINVAL && gdev == null && unchanged(this)
      ensures chip != null && old(chip.dev).Some? && old(chip.dev).value.ofNode.Some? ==>
                var ops := old(chip.ops);
                (!RegisterOpsAccepted(ops) ==> ret == -EINVAL)
                && (RegisterOpsAccepted(ops) ==> ret == (if allocOk then 0 else -ENOMEM))
      ensures ret != 0 ==> gdev == null && unchanged(this) && (chip != null ==> unchanged(chip))
      ensures ret == 0 ==>
                chip != null && gdev != null && fresh(gdev) && fresh(gdev.ei)
                && devices == old(devices) + [gdev]
                && gdev.chip == chip && chip.gdev == gdev && gdev.nlines == chip.nlines
                && gdev.Valid() && gdev.tsReq == 0
                && (forall i :: 0 <= i < gdev.ei.Length ==> gdev.ei[i] == Zeroed)
                && chip.dev == old(chip.dev) && chip.ops == old(chip.ops) && chip.nlines == old(chip.nlines)
                && chip.xlate == (if old(chip.xlate) == NoXlate then DefaultXlate else old(chip.xlate))
                && chip.ofHteNCells == (if old(chip.xlate) == NoXlate then 1 else old(chip.ofHteNCells))
    {
      if chip == null || chip.dev.None? || chip.dev.value.ofNode.None? {
        return -EINVAL, null;
      }
      if !RegisterOpsAccepted(chip.ops) {
        return -EINVAL, null;
      }
      if !allocOk {
        return -ENOMEM, null;
      }
      gdev := Attach(chip);
      ret := 0;
    }

    /** The successful part of `hte_register_chip`: a zeroed device for the
        chip, linked both ways, the default translation installed when the
        chip has none, and the device appended to the list. */
    method Attach(chip: Chip) returns (gdev: Device)
      requires Valid()
      requires chip.ops.Some? && forall d :: d in devices ==> d.chip != chip
      modifies this, chip
      ensures Valid()
      ensures fresh(gdev) && fresh(gdev.ei) && devices == old(devices) + [gdev]
      ensures gdev.chip == chip && chip.gdev == gdev && gdev.nlines == chip.nlines
      ensures gdev.Valid() && gdev.tsReq == 0
      ensures forall i :: 0 <= i < gdev.ei.Length ==> gdev.ei[i] == Zeroed
      ensures chip.dev == old(chip.dev) && chip.ops == old(chip.ops) && chip.nlines == old(chip.nlines)
      ensures chip.xlate == (if old(chip.xlate) == NoXlate then DefaultXlate else old(chip.xlate))
      ensures chip.ofHteNCells == (if old(chip.xlate) == NoXlate then 1 else old(chip.ofHteNCells))
    {
      gdev := new Device(chip.nlines);
      gdev.chip := chip;
      chip.gdev := gdev;
      if chip.xlate == NoXlate {
        chip.xlate := DefaultXlate;
        chip.ofHteNCells := 1;
      }
      devices := devices + [gdev];
    }

    /** `hte_unregister_chip`: the chip's device leaves the list and forgets
        its chip; the device memory itself is released. */
    method UnregisterChip(chip: Chip?) returns (ret: int)
      requires Valid()
      requires chip != null ==> chip.gdev != null && chip.gdev in devices
      modifies this, if chip != null then {chip.gdev} else {}
      ensures Valid()
      ensures chip == null ==> ret == -EINVAL && unchanged(this)
      ensures chip != null ==>
                var g := old(chip.gdev);
                ret == 0 && g.chip == null && g !in devices
                && (exists k :: 0 <= k < |old(devices)| && old(devices)[k] == g
                                && devices == old(devices)[..k] + old(devices)[k + 1..])
    {
      if chip == null {
        return -EINVAL;
      }
      var g := chip.gdev;
      var k :| 0 <= k < |devices| && devices[k] == g;
      devices := devices[..k] + devices[k + 1..];
      g.chip := null;
      ret := 0;
      assert forall d :: d in devices ==> d in old(devices) && d != g;
    }

    /** `of_node_to_htedevice`: the first device in list order whose chip
        sits on `np`, or `null` (the ENODEV error pointer) when there is
        none. */
    method OfNodeToHteDevice(np: NodeId) returns (gdev: Device?)
      ensures gdev == (if FirstMatch(devices, np) < |devices| then devices[FirstMatch(devices, np)] else null)
      ensures gdev == null <==> forall k :: 0 <= k < |devices| ==> !Matches(devices[k], np)
      ensures gdev != null ==>
                exists k :: 0 <= k < |devices| && devices[k] == gdev && Matches(gdev, np)
                            && forall j :: 0 <= j < k ==> !Matches(devices[j], np)
    {
      var k := 0;
      while k < |devices|
        invariant 0 <= k <= |devices|
        invariant forall j :: 0 <= j < k ==> !Matches(devices[j], np)
      {
        var d := devices[k];
        if d.chip != null && d.chip.dev.Some? && d.chip.dev.value.ofNode == Some(np) {
          return d;
        }
        k := k + 1;
      }
      return null;
    }

    /** Translation followed by `___hte_req_ts` on a found device, shared by
        both request paths. `args` are the specifier cells (none for the
        by-name path); a provider's own translation yields `providerXlate`. */
    method XlateAndRequest(g: Device, args: Option<seq<u32>>, desc: TsDesc, cb: Handle, tcb: Option<Handle>,
                           data: Option<Handle>, providerXlate: XlateOut,
                           moduleGot: bool, spawn: Spawn, providerRet: int, nameAlloc: bool)
        returns (ret: int)
      requires Valid() && g in devices && g.chip != null
      requires forall d :: d in devices ==> d.Valid()
      requires g.chip.xlate == ProviderXlate ==> DocumentedXlateContract(providerXlate, g.nlines)
      requires spawn.SpawnFailed? ==> spawn.err < 0
      modifies g, g.ei, desc
      ensures Valid() && forall d :: d in devices ==> d.Valid()
      ensures g.chip == old(g.chip)
      // a provider id one past the table is refused, not looked up
      ensures (g.chip.xlate == ProviderXlate && providerXlate.ret >= 0 && providerXlate.id == Some(g.nlines)
               && moduleGot) ==> ret == -EINVAL && g.ei[..] == old(g.ei[..])
      // success grants exactly the line the translation picked and touches no other record
      ensures ret == 0 ==>
                GrantedTranslated(g, desc, args, old(desc.conId), providerXlate, Some(cb), tcb, data, old(g.tsReq))
                && g.moduleRefs == old(g.moduleRefs) + 1
                && forall k :: 0 <= k < g.ei.Length && k != desc.hteData.value.index ==> g.ei[k] == old(g.ei[k])
      // a refusal grants nothing: the table differs at most in a looked-up id
      ensures ret != 0 ==> ret < 0 && SameUpToIds(g.ei[..], old(g.ei[..]))
                           && g.tsReq == old(g.tsReq) && g.moduleRefs == old(g.moduleRefs)
                           && desc.name == old(desc.name)
    {
      ghost var o := Translated(g.chip.xlate, g.chip.ofHteNCells, g.chip.nlines, args, desc.conId, providerXlate);
      ghost var s0 := g.ei[..];
      var id;
      ret, id := Xlate(g.chip, args, desc, providerXlate);
      if ret < 0 {
        return;
      }
      assert o.id == Some(id);
      ret := RequestOn(g, desc, id, cb, tcb, data, moduleGot, spawn, providerRet, nameAlloc);
      if ret != 0 {
        RestampSameUpToIds(s0, id as nat, id);
      }
    }

    /** The chip's translation function applied to a descriptor: the core's
        default one, or the provider's, whose outcome is `providerXlate`. */
    static method Xlate(chip: Chip, args: Option<seq<u32>>, desc: TsDesc, providerXlate: XlateOut)
        returns (ret: int, id: u32)
      requires chip.xlate != NoXlate
      requires chip.xlate == ProviderXlate ==> DocumentedXlateContract(providerXlate, chip.nlines)
      modifies desc
      ensures desc.name == old(desc.name)
      ensures ret >= 0 ==> id <= chip.nlines
      ensures ret >= 0 && chip.xlate == DefaultXlate ==> id < chip.nlines
      ensures chip.xlate == DefaultXlate ==>
                var o := SimpleXlate(chip.ofHteNCells, chip.nlines, args, old(desc.conId));
                ret == o.ret && (ret >= 0 ==> Some(id) == o.id) && desc.conId == o.conId
      ensures chip.xlate != DefaultXlate ==>
                ret == providerXlate.ret && (ret >= 0 ==> Some(id) == providerXlate.id)
                && desc.conId == providerXlate.conId
      ensures var o := Translated(chip.xlate, chip.ofHteNCells, chip.nlines, args, old(desc.conId), providerXlate);
              ret == o.ret && (ret >= 0 ==> Some(id) == o.id)
    {
      var o: Option<u32>;
      if chip.xlate == DefaultXlate {
        ret, o := SimpleXlateDesc(chip, args, desc);
      } else {
        desc.conId := providerXlate.conId;
        ret, o := providerXlate.ret, providerXlate.id;
      }
      id := if ret >= 0 then o.value else 0;
    }

    /** `___hte_req_ts` on one listed device, keeping the list's invariants. */
    method RequestOn(g: Device, desc: TsDesc, id: u32, cb: Handle, tcb: Option<Handle>, data: Option<Handle>,
                     moduleGot: bool, spawn: Spawn, providerRet: int, nameAlloc: bool)
        returns (ret: int)
      requires Valid() && g in devices
      requires forall d :: d in devices ==> d.Valid()
      requires spawn.SpawnFailed? ==> spawn.err < 0
      modifies g, g.ei, desc
      ensures Valid() && forall d :: d in devices ==> d.Valid()
      ensures g.chip == old(g.chip)
      ensures !moduleGot ==> ret == -ENODEV && g.ei[..] == old(g.ei[..]) && unchanged(g, desc)
      ensures moduleGot && id >= g.nlines ==> ret == -EINVAL && g.ei[..] == old(g.ei[..]) && unchanged(g, desc)
      ensures moduleGot && id as int < g.ei.Length ==>
                var s := RequestEntry(old(g.ei[id]), id, cb, tcb, data, spawn, providerRet,
                                      old(desc.name).None? && nameAlloc);
                ret == s.ret && g.ei[..] == old(g.ei[..])[id := s.entry]
      ensures ret == 0 ==>
                desc.hteData == Some(EntryRef(g, id as nat)) && id < g.ei.Length
                && g.ei[id].registered && g.ei[id].cb == Some(cb) && g.ei[id].tcb == tcb && g.ei[id].clData == data
                && g.tsReq == AtomicAdd(old(g.tsReq), 1) && g.moduleRefs == old(g.moduleRefs) + 1
                && desc.conId == old(desc.conId)
                && desc.name == (if old(desc.name).None? && nameAlloc
                                 then Some(DescName(AutoName(old(desc.conId)), true))
                                 else old(desc.name))
      ensures ret != 0 ==> ret < 0 && unchanged(desc) && g.tsReq == old(g.tsReq) && g.moduleRefs == old(g.moduleRefs)
    {
      ret := g.Request(desc, id, cb, tcb, data, moduleGot, spawn, providerRet, nameAlloc);
    }

    /** The part both request paths share once the consumer's arguments are
        checked: the first device on node `np` (`of_node_to_htedevice`),
        `noDev` when there is none or it has lost its chip, then translation
        and `___hte_req_ts`. The by-name path's extra test of the chip's
        `ops` cannot fail here: a listed chip always has them. */
    method RequestOnNode(np: NodeId, noDev: int, args: Option<seq<u32>>, desc: TsDesc, cb: Handle,
                         tcb: Option<Handle>, data: Option<Handle>, providerXlate: XlateOut,
                         moduleGot: bool, spawn: Spawn, providerRet: int, nameAlloc: bool)
        returns (ret: int)
      requires Valid() && forall d :: d in devices ==> d.Valid()
      requires forall d :: d in devices && d.chip != null && d.chip.xlate == ProviderXlate ==>
                 DocumentedXlateContract(providerXlate, d.nlines)
      requires spawn.SpawnFailed? ==> spawn.err < 0
      requires noDev < 0
      modifies set d | d in devices, set d | d in devices :: d.ei, desc
      ensures Valid() && forall d :: d in devices ==> d.Valid()
      ensures (forall k :: 0 <= k < |devices| ==> !Matches(devices[k], np)) ==> ret == noDev
      ensures ret == 0 ==>
                var k := old(FirstMatch(devices, np));
                k < |devices| && Matches(devices[k], np)
                && GrantedTranslated(devices[k], desc, args, old(desc.conId), providerXlate, Some(cb), tcb, data,
                                     old(devices[k].tsReq))
      ensures ret == 0 ==> forall d :: d in devices && d != desc.hteData.value.dev ==> d.ei[..] == old(d.ei[..])
      ensures ret != 0 ==> ret < 0
      ensures ret != 0 ==> forall d :: d in devices ==> SameUpToIds(d.ei[..], old(d.ei[..])) && d.tsReq == old(d.tsReq)
    {
      var g := OfNodeToHteDevice(np);
      if g == null || g.chip == null {
        ret := noDev;
      } else {
        ret := XlateAndRequest(g, args, desc, cb, tcb, data, providerXlate, moduleGot, spawn, providerRet, nameAlloc);
      }
      forall d | d in devices && d != g
        ensures d.ei[..] == old(d.ei[..]) && d.tsReq == old(d.tsReq)
      {
        assert g != null ==> d.ei != g.ei;
      }
      if ret != 0 {
        forall d | d in devices
          ensures SameUpToIds(d.ei[..], old(d.ei[..]))
        {
          RestampSameUpToIds(d.ei[..], 0, 0);
        }
      }
    }

    /** `hte_req_ts_by_hte_name`. `consumerOk` says the consumer device has a
        devicetree node and a property name was given; `phandle` is the node
        the property points at, if it resolves. A NULL primary callback
        (`cb == None`) is refused with the other missing arguments. */
    method RequestByHteName(consumerOk: bool, phandle: Option<NodeId>, desc: TsDesc?, cb: Option<Handle>,
                            tcb: Option<Handle>, data: Option<Handle>, providerXlate: XlateOut,
                            moduleGot: bool, spawn: Spawn, providerRet: int, nameAlloc: bool)
        returns (ret: int)
      requires Valid() && forall d :: d in devices ==> d.Valid()
      requires forall d :: d in devices && d.chip != null && d.chip.xlate == ProviderXlate ==>
                 DocumentedXlateContract(providerXlate, d.nlines)
      requires spawn.SpawnFailed? ==> spawn.err < 0
      modifies set d | d in devices, set d | d in devices :: d.ei, desc
      ensures Valid() && forall d :: d in devices ==> d.Valid()
      ensures !consumerOk || desc == null || cb.None? ==> ret == -EINVAL
      ensures consumerOk && desc != null && cb.Some? && phandle.None? ==> ret == -ENODEV
      ensures (consumerOk && desc != null && cb.Some? && phandle.Some?
               && forall k :: 0 <= k < |devices| ==> !Matches(devices[k], phandle.value)) ==> ret == -ENOTSUPP
      // success grants the translated line of the first device on the node, with the consumer's callbacks
      ensures ret == 0 ==>
                desc != null && cb.Some? && phandle.Some?
                && var k := old(FirstMatch(devices, phandle.value));
                   k < |devices| && Matches(devices[k], phandle.value)
                   && GrantedTranslated(devices[k], desc, None, old(desc.conId), providerXlate, cb, tcb, data,
                                        old(devices[k].tsReq))
      ensures ret == 0 ==> forall d :: d in devices && d != desc.hteData.value.dev ==> d.ei[..] == old(d.ei[..])
      // a refusal grants nothing anywhere
      ensures ret != 0 ==> ret < 0
      ensures ret != 0 ==> forall d :: d in devices ==> SameUpToIds(d.ei[..], old(d.ei[..])) && d.tsReq == old(d.tsReq)
    {
      if !consumerOk || desc == null || cb.None? {
        return -EINVAL;
      }
      if phandle.None? {
        return -ENODEV;
      }
      ret := RequestOnNode(phandle.value, -ENOTSUPP, None, desc, cb.value, tcb, data, providerXlate,
                           moduleGot, spawn, providerRet, nameAlloc);
    }

    /** `__hte_req_ts` behind `devm_of_hte_request_ts`. `consumerOk` says
        the consumer device and its devicetree node exist; `spec` is the
        parsed `hardware-timestamps` specifier, or the parse error. */
    method OfRequestTs(consumerOk: bool, spec: Option<PhandleArgs>, parseErr: int, desc: TsDesc?,
                       cb: Option<Handle>, tcb: Option<Handle>, data: Option<Handle>, providerXlate: XlateOut,
                       moduleGot: bool, spawn: Spawn, providerRet: int, nameAlloc: bool)
        returns (ret: int)
      requires Valid() && forall d :: d in devices ==> d.Valid()
      requires forall d :: d in devices && d.chip != null && d.chip.xlate == ProviderXlate ==>
                 DocumentedXlateContract(providerXlate, d.nlines)
      requires spawn.SpawnFailed? ==> spawn.err < 0
      requires parseErr < 0
      modifies set d | d in devices, set d | d in devices :: d.ei, desc
      ensures Valid() && forall d :: d in devices ==> d.Valid()
      ensures !consumerOk || desc == null || cb.None? ==> ret == -EINVAL
      ensures consumerOk && desc != null && cb.Some? && spec.None? ==> ret == parseErr
      ensures (consumerOk && desc != null && cb.Some? && spec.Some?
               && forall k :: 0 <= k < |devices| ==> !Matches(devices[k], spec.value.np)) ==> ret == -ENODEV
      // success grants the translated line of the first device on the node, with the consumer's callbacks
      ensures ret == 0 ==>
                desc != null && cb.Some? && spec.Some?
                && var k := old(FirstMatch(devices, spec.value.np));
                   k < |devices| && Matches(devices[k], spec.value.np)
                   && GrantedTranslated(devices[k], desc, Some(spec.value.args), old(desc.conId), providerXlate, cb, tcb, data,
                                        old(devices[k].tsReq))
      ensures ret == 0 ==> forall d :: d in devices && d != desc.hteData.value.dev ==> d.ei[..] == old(d.ei[..])
      // a refusal grants nothing anywhere
      ensures ret != 0 ==> ret < 0
      ensures ret != 0 ==> forall d :: d in devices ==> SameUpToIds(d.ei[..], old(d.ei[..])) && d.tsReq == old(d.tsReq)
    {
      if !consumerOk || desc == null || cb.None? {
        return -EINVAL;
      }
      if spec.None? {
        return parseErr;
      }
      ret := RequestOnNode(spec.value.np, -ENODEV, Some(spec.value.args), desc, cb.value, tcb, data, providerXlate,
                           moduleGot, spawn, providerRet, nameAlloc);
    }
  }
}
