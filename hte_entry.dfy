/** The per-line record of the HTE core (`struct hte_ts_info`) and the
    transition each core operation performs on it, as pure functions. The
    class `HteCore.Device` applies these transitions in place to its table;
    the lemmas here state what sequences of them do. */
module HteEntry {
  import opened Kernel
  import opened Hte

  /** One line's state. Locks, the debugfs directory and the back pointer to
      the device are not part of the model (the record lives in its device's
      table). */
  datatype TsInfo = TsInfo(
    xlatedId: u32,
    registered: bool,      // flag bit HTE_TS_REGISTERED
    disabled: bool,        // flag bit HTE_TS_DISABLE
    runThread: bool,       // callback flag bit HTE_CB_RUN_THREAD
    sequence: u64,
    hteName: bool,         // the core generated, and owns, the descriptor's name
    cb: Option<Handle>,
    tcb: Option<Handle>,
    dropped: i32,
    thread: Option<Handle>,
    clData: Option<Handle>)

  /** The record as the zeroing allocation of the device leaves it. */
  const Zeroed: TsInfo := TsInfo(0, false, false, false, 0, false, None, None, 0, None, None)

  /** Outcome of creating the worker thread. */
  datatype Spawn = Spawned(task: Handle) | SpawnFailed(err: int)

  /** Result of a request, release or enable/disable on one record. */
  datatype Step = Step(entry: TsInfo, ret: int, providerCalled: bool)

  // ---------------------------------------------------------------- request

  /** `___hte_req_ts` as written, once the module reference is held: the
      record after the call and the return value. `cb` is stored as the
      caller passed it (`None` is a NULL callback), `spawn` is the thread
      creation outcome (used only when `tcb` is present), `providerRet` the
      provider's `request` hook result, `coreName` whether the core generated
      the descriptor's name. A refusal after the callbacks were stored leaves
      them, and a worker already created, in the record. */
  function RequestEntryAsWritten(e: TsInfo, id: u32, cb: Option<Handle>, tcb: Option<Handle>, data: Option<Handle>,
                                 spawn: Spawn, providerRet: int, coreName: bool): (r: Step)
    requires spawn.SpawnFailed? ==> spawn.err < 0
    ensures e.registered ==> r.ret == -EUSERS && r.entry == e.(xlatedId := id) && !r.providerCalled
    ensures r.ret == 0 <==> !e.registered && (tcb.Some? ==> spawn.Spawned?) && providerRet >= 0
    ensures r.ret != 0 ==> r.ret < 0 && r.entry.registered == e.registered
    ensures r.ret == 0 ==> r.entry.registered && r.entry.cb == cb && r.entry.tcb == tcb
                           && r.entry.clData == data && r.entry.hteName == coreName
                           && r.entry.thread == (if tcb.Some? then Some(spawn.task) else e.thread)
    ensures r.providerCalled <==> !e.registered && (tcb.Some? ==> spawn.Spawned?)
    ensures !e.registered && r.ret != 0 ==>
              r.entry.cb == cb && r.entry.tcb == tcb && r.entry.clData == e.clData
              && r.entry.thread == (if tcb.Some? && spawn.Spawned? then Some(spawn.task) else e.thread)
    ensures r.entry.sequence == e.sequence && r.entry.dropped == e.dropped
    ensures r.entry.disabled == e.disabled && r.entry.runThread == e.runThread
    ensures r.entry.xlatedId == id
  {
    var e0 := e.(xlatedId := id);
    if e0.registered then Step(e0, -EUSERS, false)
    else
      var e1 := e0.(cb := cb, tcb := tcb);
      if tcb.Some? && spawn.SpawnFailed? then Step(e1, spawn.err, false)
      else
        var e2 := if tcb.Some? then e1.(thread := Some(spawn.task)) else e1;
        if providerRet < 0 then Step(e2, providerRet, true)
        else Step(e2.(clData := data, hteName := coreName, registered := true), 0, true)
  }

  /** `___hte_req_ts` with its failure paths unwound: a refused request
      clears the callbacks it stored and stops the worker it created, which
      leaves the record as it was. `cb` is non-NULL: both request paths
      refuse a NULL primary callback before getting here. */
  function RequestEntry(e: TsInfo, id: u32, cb: Handle, tcb: Option<Handle>, data: Option<Handle>,
                        spawn: Spawn, providerRet: int, coreName: bool): (r: Step)
    requires spawn.SpawnFailed? ==> spawn.err < 0
    // a line already in use is refused without asking the provider
    ensures e.registered ==> r.ret == -EUSERS && !r.providerCalled
    // success exactly when the line was free, the worker (if wanted) started and the provider agreed
    ensures r.ret == 0 <==> !e.registered && (tcb.Some? ==> spawn.Spawned?) && providerRet >= 0
    ensures r.ret == 0 ==> r.entry.registered && r.entry.cb == Some(cb) && r.entry.tcb == tcb
                           && r.entry.clData == data && r.entry.hteName == coreName
                           && r.entry.thread == (if tcb.Some? then Some(spawn.task) else e.thread)
    // the provider is asked only for a free line whose worker could be started
    ensures r.providerCalled <==> !e.registered && (tcb.Some? ==> spawn.Spawned?)
    // a refused request leaves the record as it was, apart from the id it was asked under
    ensures r.ret != 0 ==> r.ret < 0 && r.entry == e.(xlatedId := id)
    // counters, the DISABLE bit and the run flag are never touched by a request
    ensures r.entry.sequence == e.sequence && r.entry.dropped == e.dropped
    ensures r.entry.disabled == e.disabled && r.entry.runThread == e.runThread
    ensures r.entry.xlatedId == id
  {
    var a := RequestEntryAsWritten(e, id, Some(cb), tcb, data, spawn, providerRet, coreName);
    if a.ret != 0 then a.(entry := e.(xlatedId := id)) else a
  }

  /** The unwinding is the only difference: both versions return the same
      value, call the provider alike and agree on every granted record. */
  lemma RequestUnwindOnlyOnFailure(e: TsInfo, id: u32, cb: Handle, tcb: Option<Handle>, data: Option<Handle>,
                                   spawn: Spawn, providerRet: int, coreName: bool)
    requires spawn.SpawnFailed? ==> spawn.err < 0
    ensures var a := RequestEntryAsWritten(e, id, Some(cb), tcb, data, spawn, providerRet, coreName);
            var c := RequestEntry(e, id, cb, tcb, data, spawn, providerRet, coreName);
            a.ret == c.ret && a.providerCalled == c.providerCalled
            && (a.ret == 0 ==> a.entry == c.entry)
            && (a.entry != c.entry ==> !e.registered && a.ret != 0
                                       && (a.entry.cb != e.cb || a.entry.tcb != e.tcb || a.entry.thread != e.thread))
  {
  }

  // ---------------------------------------------------------------- release

  /** `hte_release_ts` on the record a descriptor points at. `providerRet` is
      the provider's `release` hook result. When a worker exists it is
      stopped; a wake still pending then runs the threaded callback one last
      time (`finalTcb`). */
  datatype ReleaseStep = ReleaseStep(entry: TsInfo, ret: int, providerCalled: bool, finalTcb: bool)

  function ReleaseEntry(e: TsInfo, providerRet: int): (r: ReleaseStep)
    ensures !e.registered ==> r.ret == -EUSERS && r.entry == e && !r.providerCalled
    ensures e.registered ==> r.providerCalled
    // a provider failure is returned and the line stays in use, unchanged
    ensures e.registered && providerRet != 0 ==> r.ret == providerRet && r.entry == e
    ensures r.ret == 0 <==> e.registered && providerRet == 0
    ensures r.ret == 0 ==>
              !r.entry.registered && r.entry.sequence == 0 && r.entry.dropped == 0
              && r.entry.cb.None? && r.entry.tcb.None? && r.entry.thread.None? && r.entry.clData.None?
              && r.entry.disabled == e.disabled && r.entry.hteName == e.hteName
              && r.entry.xlatedId == e.xlatedId
              && (e.tcb.Some? ==> !r.entry.runThread)
    ensures r.finalTcb <==> r.ret == 0 && e.tcb.Some? && e.runThread
  {
    if !e.registered then ReleaseStep(e, -EUSERS, false, false)
    else if providerRet != 0 then ReleaseStep(e, providerRet, true, false)
    else
      var cleared := e.(dropped := 0, sequence := 0, registered := false);
      var stopped := if e.tcb.Some? then cleared.(runThread := false) else cleared;
      ReleaseStep(stopped.(cb := None, tcb := None, thread := None, clData := None), 0, true,
                  e.tcb.Some? && e.runThread)
  }

  // ---------------------------------------------------------- enable/disable

  /** `hte_ts_dis_en_common`: `en` selects enable, `providerRet` is the
      provider's `enable`/`disable` hook result. */
  function EnDisEntry(e: TsInfo, en: bool, providerRet: int): (r: Step)
    ensures !e.registered ==> r.ret == -EUSERS && r.entry == e && !r.providerCalled
    // already in the target state: success without asking the provider
    ensures e.registered && e.disabled != en ==> r.ret == 0 && r.entry == e && !r.providerCalled
    ensures r.providerCalled <==> e.registered && e.disabled == en
    ensures r.providerCalled && providerRet != 0 ==> r.ret == providerRet && r.entry == e
    ensures r.providerCalled && providerRet == 0 ==> r.ret == 0 && r.entry == e.(disabled := !en)
    // only the DISABLE bit can change, and only towards the request
    ensures r.entry.(disabled := e.disabled) == e
    ensures r.ret == 0 && e.registered ==> r.entry.disabled == !en
  {
    if !e.registered then Step(e, -EUSERS, false)
    else if en && !e.disabled then Step(e, 0, false)
    else if !en && e.disabled then Step(e, 0, false)
    else if providerRet != 0 then Step(e, providerRet, true)
    else Step(e.(disabled := !en), 0, true)
  }

  // ------------------------------------------------------------------- push

  /** `hte_push_ts_ns` once the line id passed the checks: the record after
      the call, the status returned, the sequence number written into the
      timestamp, whether the primary callback ran (it returned `cbRet`) and
      whether the worker was woken. */
  datatype PushStep = PushStep(entry: TsInfo, st: int, seqNo: u64, called: bool, woke: bool)

  function PushEntry(e: TsInfo, cbRet: HteReturn): (r: PushStep)
    // the old counter is handed out and the counter advances, whatever happens next
    ensures r.seqNo == e.sequence && r.entry.sequence == NextU64(e.sequence)
    // the callback runs exactly for a registered, enabled line; otherwise -EINVAL
    ensures r.called <==> e.registered && !e.disabled
    ensures r.st == (if r.called then 0 else -EINVAL)
    // a drop report adds one to the drop counter, nothing else does
    ensures r.entry.dropped == (if r.called && cbRet == CbTsDropped then AtomicAdd(e.dropped, 1) else e.dropped)
    // threaded request with a worker: the flag is set, the worker woken only if it was clear
    ensures r.entry.runThread == (e.runThread || (r.called && cbRet == RunThreadedCb && e.thread.Some?))
    ensures r.woke <==> r.called && cbRet == RunThreadedCb && e.thread.Some? && !e.runThread
    ensures r.entry.(sequence := e.sequence, dropped := e.dropped, runThread := e.runThread) == e
  {
    var e1 := e.(sequence := NextU64(e.sequence));
    if !e.registered || e.disabled then PushStep(e1, -EINVAL, e.sequence, false, false)
    else if cbRet == RunThreadedCb && e.thread.Some? then
      if e.runThread then PushStep(e1, 0, e.sequence, true, false)
      else PushStep(e1.(runThread := true), 0, e.sequence, true, true)
    else if cbRet == CbTsDropped then
      PushStep(e1.(dropped := AtomicAdd(e.dropped, 1)), 0, e.sequence, true, false)
    else PushStep(e1, 0, e.sequence, true, false)
  }

  // ----------------------------------------------------------------- worker

  /** What one pass of the worker's wait loop decides: return 0 (run the
      threaded callback), return -1 (exit), or sleep until woken. */
  datatype WaitResult = Ready | Stopped | Sleep

  /** One pass of `_hte_wait_for_ts_data`: test-and-clear the run flag,
      checking for a stop request first. */
  function WaitPass(e: TsInfo, shouldStop: bool): (r: (TsInfo, WaitResult))
    // the flag is always consumed
    ensures r.0 == e.(runThread := false)
    // a pending wake is honoured even when stopping
    ensures r.1 == Ready <==> e.runThread
    ensures r.1 == Stopped <==> shouldStop && !e.runThread
    ensures r.1 == Sleep <==> !shouldStop && !e.runThread
  {
    if shouldStop then
      if e.runThread then (e.(runThread := false), Ready) else (e, Stopped)
    else if e.runThread then (e.(runThread := false), Ready)
    else (e, Sleep)
  }

  // ----------------------------------------------------------- accounting

  /** Number of REGISTERED records in a table. */
  function CountRegistered(s: seq<TsInfo>): (n: nat)
    ensures n <= |s|
  {
    if s == [] then 0 else (if s[0].registered then 1 else 0) + CountRegistered(s[1..])
  }

  /** Replacing one record changes the count by that record's flag change. */
  lemma {:induction false} CountUpdate(s: seq<TsInfo>, i: nat, v: TsInfo)
    requires i < |s|
    ensures CountRegistered(s[i := v]) ==
            CountRegistered(s) - (if s[i].registered then 1 else 0) + (if v.registered then 1 else 0)
  {
    if i == 0 {
      assert s[i := v][1..] == s[1..];
    } else {
      assert s[i := v][1..] == s[1..][i - 1 := v];
      CountUpdate(s[1..], i - 1, v);
    }
  }

  /** A table with no REGISTERED record counts zero. */
  lemma {:induction false} CountNone(s: seq<TsInfo>)
    requires forall i :: 0 <= i < |s| ==> !s[i].registered
    ensures CountRegistered(s) == 0
  {
    if s != [] {
      CountNone(s[1..]);
    }
  }

  // ------------------------------------------------------------ invariants

  /** What the core relies on for the record at index `i`: a REGISTERED
      record has a primary callback to call, the id it was requested under,
      and a worker exactly when it has a threaded callback; a free record
      has no worker. */
  predicate Consistent(e: TsInfo, i: nat)
  {
    (e.registered ==> e.cb.Some? && e.xlatedId == i && (e.tcb.Some? <==> e.thread.Some?))
    && (!e.registered ==> e.thread.None?)
  }

  /** Every record of a table is consistent with its index. */
  predicate TableConsistent(s: seq<TsInfo>)
  {
    forall i :: 0 <= i < |s| ==> Consistent(s[i], i)
  }

  /** Two tables that differ at most in their records' `xlated_id`: what a
      refused request leaves behind. */
  predicate SameUpToIds(a: seq<TsInfo>, b: seq<TsInfo>)
  {
    |a| == |b| && forall k :: 0 <= k < |a| ==> a[k].(xlatedId := b[k].xlatedId) == b[k]
  }

  /** Re-stamping one record's `xlated_id` keeps a table the same up to ids. */
  lemma RestampSameUpToIds(s: seq<TsInfo>, i: nat, id: u32)
    ensures i < |s| ==> SameUpToIds(s[i := s[i].(xlatedId := id)], s)
    ensures SameUpToIds(s, s)
  {
  }

  /** Storing a consistent record keeps the table consistent and moves the
      count of REGISTERED records by that record's flag change. */
  lemma PutEntry(s: seq<TsInfo>, i: nat, v: TsInfo)
    requires i < |s| && TableConsistent(s) && Consistent(v, i)
    ensures TableConsistent(s[i := v])
    ensures CountRegistered(s[i := v]) ==
            CountRegistered(s) - (if s[i].registered then 1 else 0) + (if v.registered then 1 else 0)
  {
    CountUpdate(s, i, v);
  }

  /** Every transition keeps a record consistent with its index. */
  lemma TransitionsKeepConsistent(e: TsInfo, i: u32, cb: Handle, tcb: Option<Handle>, data: Option<Handle>,
                                  spawn: Spawn, providerRet: int, coreName: bool,
                                  en: bool, cbRet: HteReturn, stop: bool)
    requires Consistent(e, i)
    requires spawn.SpawnFailed? ==> spawn.err < 0
    ensures Consistent(RequestEntry(e, i, cb, tcb, data, spawn, providerRet, coreName).entry, i)
    ensures Consistent(ReleaseEntry(e, providerRet).entry, i)
    ensures Consistent(EnDisEntry(e, en, providerRet).entry, i)
    ensures Consistent(PushEntry(e, cbRet).entry, i)
    ensures Consistent(WaitPass(e, stop).0, i)
  {
  }

  /** As written, a threaded request refused by the provider leaves its
      worker in the record; a later request without a threaded callback is
      granted on top of it, and a push asking for the threaded callback
      wakes that worker, which has no callback to run. */
  lemma LeftoverWorkerWokenWithoutTcb(e: TsInfo, id: u32, cb: Handle, tcb: Handle, task: Handle, providerErr: int)
    requires Consistent(e, id) && !e.registered && !e.disabled && !e.runThread
    requires providerErr < 0
    ensures var q1 := RequestEntryAsWritten(e, id, Some(cb), Some(tcb), None, Spawned(task), providerErr, false);
            var q2 := RequestEntryAsWritten(q1.entry, id, Some(cb), None, None, Spawned(task), 0, false);
            q1.ret == providerErr && !q1.entry.registered && q1.entry.thread == Some(task)
            && q2.ret == 0 && q2.entry.tcb.None? && q2.entry.thread == Some(task)
            && !Consistent(q2.entry, id)
            && PushEntry(q2.entry, RunThreadedCb).woke
  {
  }

  /** With the failure unwound, the same two requests leave no worker, and
      the push does not wake one. */
  lemma UnwoundRequestLeavesNoWorker(e: TsInfo, id: u32, cb: Handle, tcb: Handle, task: Handle, providerErr: int)
    requires Consistent(e, id) && !e.registered && !e.disabled && !e.runThread
    requires providerErr < 0
    ensures var q1 := RequestEntry(e, id, cb, Some(tcb), None, Spawned(task), providerErr, false);
            var q2 := RequestEntry(q1.entry, id, cb, None, None, Spawned(task), 0, false);
            q1.ret == providerErr && q1.entry.thread.None?
            && q2.ret == 0 && q2.entry.tcb.None? && q2.entry.thread.None?
            && Consistent(q2.entry, id)
            && !PushEntry(q2.entry, RunThreadedCb).woke
  {
  }

  /** On a consistent record a push only ever wakes a worker that has a
      threaded callback to run, and only calls a primary callback that
      exists. */
  lemma {:induction false} PushNeedsCallbacks(e: TsInfo, i: nat, cbRet: HteReturn)
    requires Consistent(e, i)
    ensures PushEntry(e, cbRet).woke ==> e.tcb.Some?
    ensures PushEntry(e, cbRet).called ==> e.cb.Some?
  {
  }

  /** Request and release are inverse on the line's ownership: releasing a
      freshly granted line frees it again with cleared counters and
      callbacks, and the DISABLE bit as it was; a second release is refused. */
  lemma ReleaseUndoesRequest(e: TsInfo, id: u32, cb: Handle, tcb: Option<Handle>, data: Option<Handle>,
                             spawn: Spawn, providerRet: int, coreName: bool)
    requires !e.registered && providerRet >= 0
    requires spawn.SpawnFailed? ==> spawn.err < 0
    requires tcb.Some? ==> spawn.Spawned?
    ensures var q := RequestEntry(e, id, cb, tcb, data, spawn, providerRet, coreName);
            var r := ReleaseEntry(q.entry, 0);
            q.ret == 0 && r.ret == 0 && !r.entry.registered
            && r.entry == e.(xlatedId := id, sequence := 0, dropped := 0, hteName := coreName,
                             runThread := if tcb.Some? then false else e.runThread,
                             cb := None, tcb := None, thread := None, clData := None)
            && ReleaseEntry(r.entry, 0).ret == -EUSERS
  {
  }

  /** Enable and disable are idempotent: a second call in the same
      direction succeeds without reaching the provider and changes nothing. */
  lemma EnDisIdempotent(e: TsInfo, en: bool, p1: int, p2: int)
    requires e.registered
    ensures var s := EnDisEntry(e, en, p1);
            s.ret == 0 ==> EnDisEntry(s.entry, en, p2) == Step(s.entry, 0, false)
  {
  }

  /** Disabling and re-enabling a registered, enabled line returns it to
      its former state when the provider accepts both calls. */
  lemma DisableEnableRoundTrip(e: TsInfo)
    requires e.registered && !e.disabled
    ensures var d := EnDisEntry(e, false, 0);
            d.entry.disabled && d.providerCalled
            && EnDisEntry(d.entry, true, 0).entry == e
  {
  }

  // ---------------------------------------------------------------- traces

  /** A run of pushes on one line, the callback returning `rets[k]` on the
      k-th: the final record and each push's step. */
  function PushAll(e: TsInfo, rets: seq<HteReturn>): (r: (TsInfo, seq<PushStep>))
    ensures |r.1| == |rets|
    decreases |rets|
  {
    if rets == [] then (e, [])
    else
      var s := PushEntry(e, rets[0]);
      var rest := PushAll(s.entry, rets[1..]);
      (rest.0, [s] + rest.1)
  }

  /** Remainders modulo 2^64 absorb a carried remainder. */
  lemma ModU64Step(a: int, k: int)
    ensures ((a + 1) % U64_LIMIT + k) % U64_LIMIT == (a + 1 + k) % U64_LIMIT
  {
    var q := (a + 1) / U64_LIMIT;
    var b := a + 1 + k;
    assert (a + 1) % U64_LIMIT + k == b - q * U64_LIMIT;
    var r := b % U64_LIMIT;
    var p := b / U64_LIMIT;
    assert b - q * U64_LIMIT == (p - q) * U64_LIMIT + r;
  }

  /** Sequence numbering: the k-th push of a run gets the counter's start
      value plus k (modulo 2^64), registered or not, and the counter ends
      advanced by the length of the run. */
  lemma {:induction false} PushAllNumbering(e: TsInfo, rets: seq<HteReturn>)
    ensures forall k :: 0 <= k < |rets| ==> PushAll(e, rets).1[k].seqNo == (e.sequence + k) % U64_LIMIT
    ensures PushAll(e, rets).0.sequence == (e.sequence + |rets|) % U64_LIMIT
    decreases |rets|
  {
    if rets != [] {
      var s := PushEntry(e, rets[0]);
      PushAllNumbering(s.entry, rets[1..]);
      forall k | 0 <= k < |rets|
        ensures PushAll(e, rets).1[k].seqNo == (e.sequence + k) % U64_LIMIT
      {
        if k > 0 {
          ModU64Step(e.sequence, k - 1);
        }
      }
      ModU64Step(e.sequence, |rets| - 1);
    }
  }

  function CountDrops(rets: seq<HteReturn>): nat
  {
    if rets == [] then 0 else (if rets[0] == CbTsDropped then 1 else 0) + CountDrops(rets[1..])
  }

  /** On a registered, enabled line every push reaches the callback and the
      drop counter grows by exactly the number of drop reports. */
  lemma {:induction false} PushAllDelivers(e: TsInfo, rets: seq<HteReturn>)
    requires e.registered && !e.disabled
    ensures forall k :: 0 <= k < |rets| ==> PushAll(e, rets).1[k].called && PushAll(e, rets).1[k].st == 0
    ensures PushAll(e, rets).0.dropped == Wrap32(e.dropped as int + CountDrops(rets))
    ensures PushAll(e, rets).0.registered && !PushAll(e, rets).0.disabled
    decreases |rets|
  {
    if rets == [] {
      Wrap32Small(e.dropped as int);
    } else {
      var s := PushEntry(e, rets[0]);
      PushAllDelivers(s.entry, rets[1..]);
      if rets[0] == CbTsDropped {
        Wrap32Add(e.dropped as int + 1, CountDrops(rets[1..]));
      }
    }
  }

  /** On a line that is not registered, or disabled, no push reaches the
      callback: each returns -EINVAL and only the counter moves. */
  lemma {:induction false} PushAllSuppressed(e: TsInfo, rets: seq<HteReturn>)
    requires !e.registered || e.disabled
    ensures forall k :: 0 <= k < |rets| ==> !PushAll(e, rets).1[k].called && PushAll(e, rets).1[k].st == -EINVAL
    ensures PushAll(e, rets).0 == e.(sequence := PushAll(e, rets).0.sequence)
    decreases |rets|
  {
    if rets != [] {
      PushAllSuppressed(PushEntry(e, rets[0]).entry, rets[1..]);
    }
  }

  function CountWakes(steps: seq<PushStep>): nat
  {
    if steps == [] then 0 else (if steps[0].woke then 1 else 0) + CountWakes(steps[1..])
  }

  /** Coalescing: a burst of threaded-callback requests on a line with a
      worker wakes it at most once (exactly once when the flag was clear),
      and leaves the flag set. */
  lemma {:induction false} PushAllCoalesces(e: TsInfo, rets: seq<HteReturn>)
    requires e.registered && !e.disabled && e.thread.Some?
    requires forall k :: 0 <= k < |rets| ==> rets[k] == RunThreadedCb
    ensures CountWakes(PushAll(e, rets).1) == (if e.runThread || rets == [] then 0 else 1)
    ensures PushAll(e, rets).0.runThread == (e.runThread || rets != [])
    ensures PushAll(e, rets).0.thread == e.thread
    decreases |rets|
  {
    if rets != [] {
      PushAllCoalesces(PushEntry(e, rets[0]).entry, rets[1..]);
    }
  }

  /** A burst followed by the worker's turn runs the threaded callback once:
      the first pass is Ready, the next one finds nothing pending. */
  lemma BurstRunsWorkerOnce(e: TsInfo, rets: seq<HteReturn>, shouldStop: bool)
    requires e.registered && !e.disabled && e.thread.Some? && !e.runThread
    requires |rets| >= 1 && forall k :: 0 <= k < |rets| ==> rets[k] == RunThreadedCb
    ensures CountWakes(PushAll(e, rets).1) == 1
    ensures WaitPass(PushAll(e, rets).0, shouldStop).1 == Ready
    ensures WaitPass(WaitPass(PushAll(e, rets).0, shouldStop).0, shouldStop).1
            == (if shouldStop then Stopped else Sleep)
  {
    PushAllCoalesces(e, rets);
  }

  /** Request does not restart the numbering: a push that arrives while the
      line is released still advances the counter, so the first timestamp
      of the next registration carries sequence 1, not 0. */
  lemma NumberingSurvivesRelease(e: TsInfo, stray: HteReturn, id: u32, cb: Handle, data: Option<Handle>,
                                  providerRet: int, first: HteReturn)
    requires !e.registered && e.sequence == 0 && !e.disabled
    requires providerRet >= 0
    ensures var p := PushEntry(e, stray);
            var q := RequestEntry(p.entry, id, cb, None, data, Spawned(0), providerRet, false);
            q.ret == 0 && !p.called && PushEntry(q.entry, first).called && PushEntry(q.entry, first).seqNo == 1
  {
  }
}
