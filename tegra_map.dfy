/** Line numbering of the Tegra194 timestamping engine: the always-on (AON)
    GPIO table, `tegra_hte_map_to_line_id` and the provider's translation
    hook `tegra_hte_line_xlate`. A line id is `slice * 32 + bit`. The LIC
    instance has no table and uses the consumer's id unchanged. */
module TegraMap {
  import opened Kernel
  import opened Hte

  /** `NV_AON_SLICE_INVALID`: the table's marker for a GPIO without a line. */
  const NV_AON_SLICE_INVALID: int := -1

  /** One table entry: the slice and the bit within it. */
  datatype LineMapped = LineMapped(slice: int, bitIndex: u32)

  /** `tegra194_aon_gpio_map`, indexed by AON GPIO number. */
  const Tegra194AonGpioMap: seq<LineMapped> := [
    LineMapped(2, 11), LineMapped(2, 10), LineMapped(2, 9), LineMapped(2, 8),      // AA_0..AA_3
    LineMapped(2, 7), LineMapped(2, 6), LineMapped(2, 5), LineMapped(2, 4),        // AA_4..AA_7
    LineMapped(2, 3), LineMapped(2, 2), LineMapped(2, 1), LineMapped(2, 0),        // BB_0..BB_3
    LineMapped(-1, 0), LineMapped(-1, 0), LineMapped(-1, 0), LineMapped(-1, 0),    // 12..15
    LineMapped(2, 22), LineMapped(2, 21), LineMapped(2, 20), LineMapped(2, 19),    // CC_0..CC_3
    LineMapped(2, 18), LineMapped(2, 17), LineMapped(2, 16), LineMapped(2, 15),    // CC_4..CC_7
    LineMapped(2, 14), LineMapped(2, 13), LineMapped(2, 12),                       // DD_0..DD_2
    LineMapped(-1, 0), LineMapped(-1, 0), LineMapped(-1, 0), LineMapped(-1, 0),    // 27..30
    LineMapped(-1, 0),                                                             // 31
    LineMapped(1, 13), LineMapped(1, 12),                                          // EE_0, EE_1
    LineMapped(2, 27), LineMapped(2, 26), LineMapped(2, 25), LineMapped(2, 24),    // EE_2..EE_5
    LineMapped(2, 23)                                                              // EE_6
  ]

  /** `map_sz` of the AON table: `ARRAY_SIZE(tegra194_aon_gpio_map)`. */
  const AON_MAP_SZ: nat := 39

  lemma AonMapSize()
    ensures |Tegra194AonGpioMap| == AON_MAP_SZ
  {
  }

  /** A GPIO the AON table gives a line to. */
  predicate AonValid(eid: nat)
  {
    eid < |Tegra194AonGpioMap| && Tegra194AonGpioMap[eid].slice != NV_AON_SLICE_INVALID
  }

  /** The line the table gives a GPIO: `(slice << 5) + bit_index`. */
  function AonLine(eid: nat): int
    requires eid < |Tegra194AonGpioMap|
  {
    Tegra194AonGpioMap[eid].slice * 32 + Tegra194AonGpioMap[eid].bitIndex
  }

  /** The table by ports: AA and BB feed slice 2 bits 11 down to 0, CC and DD
      bits 22 down to 12, EE_2..EE_6 bits 27 down to 23, and EE_0/EE_1 slice 1
      bits 13 and 12; GPIOs 12-15 and 27-31 have no line. */
  lemma AonTableLayout(eid: nat)
    requires eid < AON_MAP_SZ
    ensures AonValid(eid) <==> !(12 <= eid <= 15 || 27 <= eid <= 31)
    ensures 0 <= eid <= 11 ==> AonLine(eid) == 64 + 11 - eid
    ensures 16 <= eid <= 26 ==> AonLine(eid) == 64 + 38 - eid
    ensures 34 <= eid <= 38 ==> AonLine(eid) == 64 + 61 - eid
    ensures eid == 32 ==> AonLine(eid) == 32 + 13
    ensures eid == 33 ==> AonLine(eid) == 32 + 12
  {
  }

  /** The 30 valid GPIOs get pairwise distinct lines: slice 2 bits 0-27 and
      slice 1 bits 12 and 13. */
  lemma AonLinesDistinct(a: nat, b: nat)
    requires AonValid(a) && AonValid(b) && a != b
    ensures AonLine(a) != AonLine(b)
  {
    AonTableLayout(a);
    AonTableLayout(b);
  }

  lemma AonLinesRange(eid: nat)
    requires AonValid(eid)
    ensures 64 <= AonLine(eid) <= 64 + 27 || 32 + 12 <= AonLine(eid) <= 32 + 13
  {
    AonTableLayout(eid);
  }

  /** A mapped line splits back into the table's slice and bit, the way the
      enable path splits it (`line_id >> 5`, `line_id & 31`). */
  lemma AonLineSplits(eid: nat)
    requires AonValid(eid)
    ensures AonLine(eid) / 32 == Tegra194AonGpioMap[eid].slice
    ensures AonLine(eid) % 32 == Tegra194AonGpioMap[eid].bitIndex as int
  {
    AonTableLayout(eid);
  }

  /** Result of a mapping: return value and the id stored through `mapped`. */
  datatype MapOut = MapOut(ret: int, mapped: Option<u32>)

  /** The table index guard as written: only ids above `map_sz` are refused
      before `m[eid]` is read. */
  predicate MapIndexAcceptedAsWritten(eid: u32)
  {
    !(eid > AON_MAP_SZ)
  }

  /** The as-written guard lets through `eid == map_sz`, one past the
      table's last entry. */
  lemma MapIndexCheckAdmitsEnd()
    ensures MapIndexAcceptedAsWritten(AON_MAP_SZ as u32)
    ensures !(AON_MAP_SZ < |Tegra194AonGpioMap|)
  {
  }

  /** `tegra_hte_map_to_line_id` with the table index checked against the
      table size (`aon` says whether the instance has the AON table). */
  function MapToLineId(eid: u32, aon: bool): (o: MapOut)
    ensures !aon ==> o == MapOut(0, Some(eid))
    ensures aon ==> (o.ret == 0 <==> AonValid(eid))
    ensures aon && o.ret == 0 ==> o.mapped.Some? && o.mapped.value == AonLine(eid)
    ensures o.ret != 0 ==> o == MapOut(-EINVAL, None)
  {
    if aon then
      if eid > AON_MAP_SZ then MapOut(-EINVAL, None)
      else if eid == AON_MAP_SZ then MapOut(-EINVAL, None)
      else if Tegra194AonGpioMap[eid].slice == NV_AON_SLICE_INVALID then MapOut(-EINVAL, None)
      else
        AonLinesRange(eid);
        MapOut(0, Some(AonLine(eid)))
    else MapOut(0, Some(eid))
  }

  /** With the AON table every mapped id is one of the table's lines, and
      distinct GPIOs never share a line. */
  lemma MapToLineIdInjective(a: u32, b: u32)
    requires MapToLineId(a, true).ret == 0 && MapToLineId(b, true).ret == 0
    requires MapToLineId(a, true).mapped == MapToLineId(b, true).mapped
    ensures a == b
  {
    if a != b {
      AonLinesDistinct(a, b);
    }
  }

  /** The specifier check and `con_id` update of `tegra_hte_line_xlate`:
      with args the node must have at least one cell and exactly that many
      args, and `con_id` becomes `args[0]`. Returns 0 or `-EINVAL` and the
      `con_id` afterwards. */
  function XlateConId(nCells: u8, args: Option<seq<u32>>, conId: u32): (r: (int, u32))
    ensures r.0 == 0 <==> args.None? || (nCells >= 1 && |args.value| == nCells as int)
    ensures r.0 != 0 ==> r == (-EINVAL, conId)
    ensures r.0 == 0 ==> r.1 == (if args.Some? then args.value[0] else conId)
  {
    if args.Some? then
      if nCells < 1 then (-EINVAL, conId)
      else if |args.value| != nCells as int then (-EINVAL, conId)
      else (0, args.value[0])
    else (0, conId)
  }

  /** `tegra_hte_line_xlate` as written: the mapped id is refused only above
      the line count. */
  function TegraXlateAsWritten(nCells: u8, nlines: u32, aon: bool, args: Option<seq<u32>>, conId: u32): (o: XlateOut)
    ensures DocumentedXlateContract(o, nlines)
  {
    var (ret, con) := XlateConId(nCells, args, conId);
    if ret != 0 then XlateOut(ret, con, None)
    else
      var m := MapToLineId(con, aon);
      if m.ret < 0 then XlateOut(m.ret, con, None)
      else if m.mapped.value > nlines then XlateOut(-EINVAL, con, m.mapped)
      else XlateOut(0, con, m.mapped)
  }

  /** On a two-slice AON instance (64 lines) GPIO BB_3, slice 2 bit 0, maps
      to line 64 and the as-written check hands that id out although the
      line table ends at 63. */
  lemma TegraXlateAsWrittenOverruns()
    ensures var o := TegraXlateAsWritten(1, 64, true, Some([11]), 0);
            o.ret == 0 && o.id == Some(64) && !TableXlateContract(o, 64)
  {
    AonTableLayout(11);
  }

  /** `tegra_hte_line_xlate` with the mapped id checked against the line
      table: what the core needs from a provider's translation. */
  function TegraXlate(nCells: u8, nlines: u32, aon: bool, args: Option<seq<u32>>, conId: u32): (o: XlateOut)
    ensures TableXlateContract(o, nlines)
    ensures o.ret == 0 || o.ret == -EINVAL
    ensures var (ret, con) := XlateConId(nCells, args, conId);
            o.conId == con
            && (o.ret == 0 <==> ret == 0 && MapToLineId(con, aon).ret == 0
                                && MapToLineId(con, aon).mapped.value < nlines)
            && (o.ret == 0 ==> o.id == MapToLineId(con, aon).mapped)
  {
    var (ret, con) := XlateConId(nCells, args, conId);
    if ret != 0 then XlateOut(ret, con, None)
    else
      var m := MapToLineId(con, aon);
      if m.ret < 0 then XlateOut(m.ret, con, None)
      else if m.mapped.value > nlines then XlateOut(-EINVAL, con, m.mapped)
      else if m.mapped.value == nlines then XlateOut(-EINVAL, con, m.mapped)
      else XlateOut(0, con, m.mapped)
  }

  /** The corrected translation differs from the as-written one only where
      the mapped id equals the line count. */
  lemma TegraXlateDiffersOnlyAtEnd(nCells: u8, nlines: u32, aon: bool, args: Option<seq<u32>>, conId: u32)
    ensures var a := TegraXlateAsWritten(nCells, nlines, aon, args, conId);
            var c := TegraXlate(nCells, nlines, aon, args, conId);
            a != c <==> a.ret == 0 && a.id == Some(nlines)
  {
  }
}
