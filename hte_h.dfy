/** The shared vocabulary of the hardware timestamping engine (HTE) API:
    timestamp records, callback return codes, the provider operation table,
    the translation contract and the stubs used when the subsystem is
    configured out. */
module Hte {
  import opened Kernel

  /** Direction of the edge that was timestamped. */
  datatype HteDir = RisingEdge | FallingEdge | DirNoSupp

  /** One timestamp: value in ns, sequence number, edge direction. */
  datatype TsData = TsData(tsc: u64, seqNo: u64, dir: HteDir)

  /** `CLOCK_MONOTONIC` from the POSIX clock ids. */
  const CLOCK_MONOTONIC: int := 1

  /** Clock a provider timestamps with. */
  datatype ClkInfo = ClkInfo(hz: u64, clockType: int)

  /** What the consumer's primary callback returns. */
  datatype HteReturn = CbHandled | RunThreadedCb | CbTsDropped | CbError

  /** Which hooks a provider filled in its operation table (a null hook is `false`). */
  datatype HteOps = HteOps(request: bool, release: bool, enable: bool, disable: bool,
                           getClkSrcInfo: bool)

  /** A devicetree node identity. */
  type NodeId = nat

  /** Device-tree specifier cells passed to a translation function;
      `args_count` is `|args|`. */
  datatype PhandleArgs = PhandleArgs(np: NodeId, args: seq<u32>)

  /** What a translation function leaves behind: its return value, the
      descriptor's `con_id` afterwards, and the id it stored through
      `xlated_id` (`None` when it stored nothing). */
  datatype XlateOut = XlateOut(ret: int, conId: u32, id: Option<u32>)

  /** The translation contract as the header documents it: success is a
      non-negative return with an id in 0..nlines, both ends included. */
  predicate DocumentedXlateContract(o: XlateOut, nlines: u32)
  {
    o.ret >= 0 ==> o.id.Some? && o.id.value <= nlines
  }

  /** The contract the core actually needs: the stored id indexes the
      `nlines`-entry line table. */
  predicate TableXlateContract(o: XlateOut, nlines: u32)
  {
    o.ret >= 0 ==> o.id.Some? && o.id.value < nlines
  }

  /** Every id the table contract admits is admitted by the documented one. */
  lemma TableContractRefinesDocumented(o: XlateOut, nlines: u32)
    requires TableXlateContract(o, nlines)
    ensures DocumentedXlateContract(o, nlines)
  {
  }

  /** The consumer and provider entry points of the API. */
  datatype Api = RegisterChip | PushTsNs | ReleaseTs | OfRequestTs | RequestByHteName
               | EnableTs | DisableTs | GetClkSrcInfo

  /** With the subsystem configured out every entry point is a stub that
      reports "not supported" and touches nothing. */
  function DisabledStub(api: Api): (r: int)
    ensures r < 0 && -r == ENOTSUPP
  {
    -ENOTSUPP
  }
}
