# Hardware timestamping engine (HTE): core and Tegra194 provider

This project models the Linux hardware timestamping engine subsystem in
Dafny. The subsystem has three parts, all modelled here.

- **The HTE core** (`drivers/hte/hte.c`). A provider registers a chip, and
  the core gives it a device with one record per line. A consumer asks for
  a line through a devicetree specifier or a phandle property. The core
  translates the consumer's id to a line, takes the provider's module
  reference and records the consumer's callbacks. The provider then pushes
  timestamps. The core numbers each one, calls the consumer's primary
  callback and, when asked, wakes a per-line worker that runs the threaded
  callback. Consumers can enable, disable and release their lines.
- **The Tegra194 provider** (`drivers/hte/hte-tegra194.c`). It maps AON GPIOs
  to engine lines and sets or clears a line's bit in its slice's enable
  register. From its interrupt it decodes FIFO entries into timestamps. At
  suspend it saves the engine registers and at resume it restores them.
- **The API vocabulary** (`include/linux/hte.h`). It defines the timestamp
  record, the callback return codes, the provider operation table, the
  translation contract and the stubs used when the subsystem is configured
  out.

## Modules

| file | module | contents |
|---|---|---|
| `kernel.dfy` | `Kernel` | fixed-width integers; errno values; `Option`; 32-bit `atomic_t` and 64-bit counter wrap-around |
| `hte_h.dfy` | `Hte` | the types of `hte.h`; the documented and the table-safe translation contracts; the `!CONFIG_HTE` stubs |
| `hte_naming.dfy` | `HteNaming` | the `"ts_%u"` name written with `scnprintf` into a 10-byte buffer |
| `hte_entry.dfy` | `HteEntry` | one line record (`struct hte_ts_info`); pure functions for each transition (request, release, enable/disable, push, worker pass); lemmas about sequences of transitions |
| `hte_core.dfy` | `HteCore` | classes `Chip`, `TsDesc` and `Device` (with its `array` of records); the methods that change them in place; `hte_simple_xlate` |
| `hte_registry.dfy` | `HteRegistry` | class `Registry` (the `hte_devices` list); registration, unregistration, node lookup and the two request paths |
| `tegra_bits.dfy` | `TegraBits` | bits of 32-bit register words: bit test, `^`, `__builtin_ctz`, set bit, clear bit |
| `tegra_map.dfy` | `TegraMap` | the AON GPIO table; `tegra_hte_map_to_line_id`; `tegra_hte_line_xlate` |
| `tegra_fifo.dfy` | `TegraFifo` | what a FIFO entry means (events, line ids, directions, ns timestamps); the clock |
| `tegra_hte.dfy` | `TegraHte` | class `TegraHteSoc`: register map, slice array, enable/disable read-modify-write, FIFO reader, suspend/resume, probe and remove |

### Design choices

- **Imperative code becomes methods proved against specification functions.**
  - Each imperative operation of the core is a method on the classes.
  - Its postcondition equates the new table with one pure transition of
    `HteEntry` applied to the old record. Examples: `Device.Grant` against
    `RequestEntry`, and `PushTsNs` against `PushEntry`.
  - The properties are then proved about those functions. Examples:
    ownership, numbering, drop counting and coalescing of worker wake-ups.
- **Tegra operations follow the same scheme.**
  - `EnDisCommon` is equated with `EnDisSpec`, and `ReadFifo` and
    `DecodeEntry` with `FifoEvents` and `EntryEvents`.
  - `SuspendLate` and `ResumeEarly` are equated with `SavedSlices`,
    `ResumedSlices` and `RestoreRegs`.
- **Inputs stand in for what the model cannot see.** Provider hook results,
  consumer callback results, allocation, module-reference and thread-creation
  outcomes, and devicetree lookups are method parameters.
- **Integer widths are modelled explicitly.** Registers are `u32`. `ts_req`
  and `dropped_ts` wrap as 32-bit `atomic_t`. `seq` wraps at 2^64. The
  timestamp `tsc << 5` is reduced modulo 2^64, and `nlines = slices << 5` is
  reduced modulo 2^32.

### Behaviour of the code worth noting

- A request neither zeroes the line's sequence counter nor its drop
  counter; only release does. A push that reaches a released line still
  advances the counter (`HteEntry.NumberingSurvivesRelease`).
- A push on a line that is not registered, or is disabled, returns
  `-EINVAL`. The sequence number advances on every push that passes the id
  check, not only on delivered ones.
- A failing provider `release` hook aborts the release: the error is
  returned and the line stays registered, unchanged.
- A request that fails after the callbacks were stored, or after the worker
  was created, does not clear them, and the worker stays alive. This is
  one of the findings below; the model's request unwinds them.
- AON GPIOs EE_0 and EE_1 map to slice 1 **bits 13 and 12** (lines 45 and
  44). The macros are named `..._GPIO_29` and `..._GPIO_28`, but their
  values are 13 and 12.
- `HTE_EVENT_RISING_EDGE` / `HTE_EVENT_FALLING_EDGE` are carried as the
  `hte_dir` values `RisingEdge` / `FallingEdge`.

## Model

| member | source | states |
|---|---|---|
| `Kernel.Wrap32Add` | drivers/hte/hte.c:196 | wrapping an `atomic_t` and then adding equals wrapping the unwrapped sum, so `ts_req` stays the wrapped count of granted lines |
| `Hte.TableContractRefinesDocumented` | include/linux/hte.h:153-156 | every translation result whose id indexes the `nlines`-entry table also meets the documented contract (success, id in 0..nlines inclusive) |
| `Hte.DisabledStub` | include/linux/hte.h:195-245 | with the subsystem configured out, every entry point returns `-ENOTSUPP` (negative) |
| `HteNaming.DigitChar` | drivers/hte/hte.c:464-465 | a digit character denotes its decimal value |
| `HteNaming.DecimalRoundTrip` | drivers/hte/hte.c:464-465 | `%u` prints a non-empty digit string that parses back to the number |
| `HteNaming.DecimalLength` | drivers/hte/hte.c:464-465 | the printed number fits in `k` characters exactly when it is below `10^k` |
| `HteNaming.Truncate` | drivers/hte/hte.c:464-465 | `scnprintf` keeps the longest prefix of the text that leaves room for the terminator: all of it when it fits in `size - 1` characters, exactly its first `size - 1` otherwise |
| `HteNaming.AutoName` | drivers/hte/hte.c:460-468 | the generated name is exactly the longest prefix of `"ts_" + con_id` that fits the 10-byte buffer with its terminator (nine characters) |
| `HteNaming.AutoNameFits` | drivers/hte/hte.c:22 | for `con_id < 10^6` the name is all of `"ts_<con_id>"` and parses back to `con_id` |
| `HteNaming.AutoNameInjective` | drivers/hte/hte.c:460-468 | below `10^6`, distinct ids get distinct names |
| `HteNaming.AutoNameTruncates` | drivers/hte/hte.c:22 | ids 1000000 and 1000001 both get `"ts_100000"`, so longer ids collide |
| `HteEntry.RequestEntryAsWritten` | drivers/hte/hte.c:412-484 | the request as written: a registered line gives `-EUSERS` with no provider call; success iff the line is free, the worker (if a threaded callback is given) started and the provider agreed; the callback is stored as passed, NULL included; a failure after the callbacks were stored leaves them and the created worker in the record |
| `HteEntry.RequestEntry` | drivers/hte/hte.c:412-484 | the request with its failures unwound: same return values and provider calls; on success REGISTERED, `cb`, `tcb`, `cl_data` and the name flag are set and a worker exists iff `tcb` was given; a refused request leaves the record as it was; counters and DISABLE are untouched |
| `HteEntry.RequestUnwindOnlyOnFailure` | drivers/hte/hte.c:432-483 | the as-written and the unwound request return the same value, call the provider alike and grant the same record; they differ only on a refused request that stored callbacks or a worker |
| `HteEntry.ReleaseEntry` | drivers/hte/hte.c:156-222 | an unregistered line gives `-EUSERS` with nothing changed; a provider failure is returned with the line unchanged; success clears REGISTERED, `seq`, `dropped_ts`, callbacks, thread and client data, keeps DISABLE, and runs a pending threaded callback once before the worker exits |
| `HteEntry.EnDisEntry` | drivers/hte/hte.c:225-293 | `-EUSERS` on an unregistered line; success without calling the provider when already in the target state; a provider failure is returned and DISABLE kept; otherwise DISABLE is set to `!en`; no other field changes |
| `HteEntry.PushEntry` | drivers/hte/hte.c:746-790 | the old `seq` is handed out and `seq` advances mod 2^64 on every push; the callback runs iff the line is registered and enabled, else `-EINVAL`; a drop report adds exactly 1 to `dropped_ts`; a threaded request with a worker sets the run flag and wakes only when it was clear |
| `HteEntry.WaitPass` | drivers/hte/hte.c:365-387 | one pass consumes the run flag; a pending wake is honoured even when stopping; otherwise stop exits and no stop sleeps |
| `HteEntry.CountUpdate` | drivers/hte/hte.c:439-471 | storing one record moves the count of REGISTERED records by that record's flag change |
| `HteEntry.CountNone` | drivers/hte/hte.c:815-819 | a table with no REGISTERED record counts zero |
| `HteEntry.PutEntry` | drivers/hte/hte.c:194-202 | storing a record consistent with its index keeps the table consistent and updates the count |
| `HteEntry.TransitionsKeepConsistent` | drivers/hte/hte.c:412-484 | every transition keeps a registered record with a primary callback, its own id, and a worker exactly when a threaded callback is set, and keeps free records without a worker |
| `HteEntry.LeftoverWorkerWokenWithoutTcb` | drivers/hte/hte.c:441-453 | as written, a threaded request refused by the provider leaves its worker; a later request without `tcb` is granted on top of it, and a `HTE_RUN_THREADED_CB` push wakes that worker, which has no threaded callback |
| `HteEntry.UnwoundRequestLeavesNoWorker` | drivers/hte/hte.c:441-453 | with the failure unwound, the same two requests leave no worker and the push wakes nothing |
| `HteEntry.PushNeedsCallbacks` | drivers/hte/hte.c:774-779 | on a consistent record a push calls a primary callback only when one exists and wakes a worker only when a threaded callback exists |
| `HteEntry.ReleaseUndoesRequest` | drivers/hte/hte.c:156-222 | a release after a successful request frees the line with cleared counters and callbacks and DISABLE as before; a second release gives `-EUSERS` |
| `HteEntry.EnDisIdempotent` | drivers/hte/hte.c:254-274 | a second enable (or disable) succeeds without the provider and changes nothing |
| `HteEntry.DisableEnableRoundTrip` | drivers/hte/hte.c:225-293 | disable then enable, both accepted, returns a registered line to its former state |
| `HteEntry.PushAll` | drivers/hte/hte.c:746-790 | a run of pushes yields one step per callback result |
| `HteEntry.ModU64Step` | drivers/hte/hte.c:765 | remainders mod 2^64 absorb a carried remainder |
| `HteEntry.PushAllNumbering` | drivers/hte/hte.c:765 | the k-th push of a run gets `seq + k` mod 2^64, registered or not, and the counter ends advanced by the run's length |
| `HteEntry.PushAllDelivers` | drivers/hte/hte.c:774-784 | on a registered, enabled line every push reaches the callback and `dropped_ts` grows by exactly the number of drop reports (32-bit wrap) |
| `HteEntry.PushAllSuppressed` | drivers/hte/hte.c:767-772 | on an unregistered or disabled line no push reaches the callback, each returns `-EINVAL`, and only `seq` moves |
| `HteEntry.PushAllCoalesces` | drivers/hte/hte.c:774-779 | a burst of threaded-callback requests wakes the worker at most once (once when the flag was clear) and leaves the flag set |
| `HteEntry.BurstRunsWorkerOnce` | drivers/hte/hte.c:365-397 | after a burst the worker's first pass runs the threaded callback and the next finds nothing pending |
| `HteEntry.NumberingSurvivesRelease` | drivers/hte/hte.c:765 | a request does not restart numbering: a stray push on a released line makes the next registration's first timestamp carry sequence 1 |
| `HteCore.Device.constructor` | drivers/hte/hte.c:806-819 | the zeroed device has `nlines` zeroed records, `ts_req == 0`, no references held and the table invariant |
| `HteCore.Device.Request` | drivers/hte/hte.c:412-484 | no module reference gives `-ENODEV` and nothing changes; an id not below `nlines` gives `-EINVAL` and nothing changes; otherwise the table changes by `RequestEntry` at the line; success points the descriptor at the record, increments `ts_req`, takes one module reference and names an unnamed descriptor `ts_<con_id>` when the buffer could be allocated |
| `HteCore.Device.Grant` | drivers/hte/hte.c:423-471 | the record becomes `RequestEntry` of the old one (a refusal unwinds the stored callbacks and worker); the module reference is kept only on success; the invariant `ts_req == wrap(references) == wrap(#REGISTERED)` is preserved |
| `HteCore.Device.WorkerRun` | drivers/hte/hte.c:365-397 | the worker loop runs the threaded callback once exactly when the run flag was set, clears it, and exits iff a stop was requested |
| `HteCore.Device.Release` | drivers/hte/hte.c:177-221 | the record becomes `ReleaseEntry` of the old one; success clears `hte_data`, frees a core-made name, decrements `ts_req` and drops a reference; failure changes nothing |
| `HteCore.Device.Retire` | drivers/hte/hte.c:194-216 | the successful release's table step: counters drop, the record is cleared, the worker is stopped after its last pending run |
| `HteCore.FreeCoreName` | drivers/hte/hte.c:189-190 | the name's storage is freed only when the core made it; the text is kept |
| `HteCore.ReleaseTs` | drivers/hte/hte.c:156-222 | a null descriptor or one not pointing at a record gives `-EINVAL` and changes nothing (so a second release fails); otherwise as `Device.Release` |
| `HteCore.EnDisHookUnchecked` | drivers/hte/hte.c:261 | as written, registration accepts a chip with only `request` and `release`; disabling an enabled line of it calls the missing `disable` hook, and enabling a disabled line calls the missing `enable` hook |
| `HteCore.EnDisCommon` | drivers/hte/hte.c:225-293 | a null or ungranted descriptor gives `-EINVAL`; where the provider hook would be called but the chip lacks it, `-ENOTSUPP` and nothing changes; otherwise the record becomes `EnDisEntry` of the old one; the device invariant holds |
| `HteCore.EnableTs` | drivers/hte/hte.c:319-322 | `EnDisCommon` with `en == true` |
| `HteCore.DisableTs` | drivers/hte/hte.c:305-308 | `EnDisCommon` with `en == false` |
| `HteCore.PushIdCheckAdmitsEnd` | drivers/hte/hte.c:757 | the as-written check `xlated_id > nlines` lets `xlated_id == nlines`, one past the last record, through |
| `HteCore.PushTsNs` | drivers/hte/hte.c:746-790 | a null chip, data or device, or an id not below `nlines`, gives `-EINVAL` and changes nothing; otherwise the record becomes `PushEntry` of the old one and the timestamp carries its sequence number |
| `HteCore.GetClkSrcInfo` | drivers/hte/hte.c:712-732 | `-EINVAL` without a descriptor, record, result structure or chip; `-ENOTSUPP` without the hook; otherwise the hook's result, with the clock reported iff it returned 0 |
| `HteCore.SimpleXlateStore` | drivers/hte/hte.c:325-356 | with cells: requires at least one cell and a matching count, then `args[0]` becomes both `con_id` and the id; without: the id is `con_id` |
| `HteCore.SimpleXlateAsWritten` | drivers/hte/hte.c:357-362 | the as-written translation meets only the documented contract (id in 0..nlines inclusive) |
| `HteCore.SimpleXlateAsWrittenOverruns` | drivers/hte/hte.c:357 | with `con_id == nlines` the as-written translation succeeds with an id that indexes no record |
| `HteCore.SimpleXlate` | drivers/hte/hte.c:325-363 | the corrected translation meets the table contract; succeeds iff the cell checks pass and the id is below `nlines`; the id always equals `con_id` |
| `HteCore.SimpleXlateDiffersOnlyAtEnd` | drivers/hte/hte.c:357 | the corrected and as-written translations differ exactly when the as-written one hands out id `nlines` |
| `HteCore.SimpleXlateDesc` | drivers/hte/hte.c:325-363 | the descriptor's `con_id` is updated as `SimpleXlate` says and `hte_data` is cleared on success |
| `HteRegistry.Registry.RegisterChip` | drivers/hte/hte.c:793-845 | `-EINVAL` without a chip, device or node, or without `request`/`release` hooks; `-ENOMEM` when allocation fails; success appends a fresh zeroed device linked both ways and installs the default translation with one cell when the chip has none |
| `HteRegistry.Registry.Attach` | drivers/hte/hte.c:806-838 | the new device is appended, linked to the chip, has `nlines` zeroed records, and keeps the list's invariants |
| `HteRegistry.Registry.UnregisterChip` | drivers/hte/hte.c:854-876 | `-EINVAL` without a chip; otherwise the chip's device is removed from the list at its position and unlinked |
| `HteRegistry.FirstMatch` | drivers/hte/hte.c:486-502 | the position of the first device in list order whose chip sits on the node: every earlier device does not match, and the position is the list's length when none does |
| `HteRegistry.Registry.OfNodeToHteDevice` | drivers/hte/hte.c:486-502 | returns the device at `FirstMatch`, the first in list order whose chip sits on the node, or none exactly when no device matches |
| `HteRegistry.ByNameNullCallbackRegisters` | drivers/hte/hte.c:668 | as written, the by-name argument check passes a NULL primary callback, the request is granted with no callback stored, and the next push calls it |
| `HteRegistry.DocumentedXlateReachesPastTable` | drivers/hte/hte.c:423 | a translation keeping the documented contract may return id `nlines`, which `___hte_req_ts` as written looks up in the `nlines`-entry table |
| `HteRegistry.Registry.Xlate` | drivers/hte/hte.c:557-559 | the chip's translation is applied: the result and id are those of `Translated`, which is `SimpleXlate` of the chip's cells, `nlines` and arguments for the default translation and the provider's outcome otherwise; the default gives an id below `nlines`, a provider keeping the documented contract one of at most `nlines` |
| `HteRegistry.Registry.RequestOn` | drivers/hte/hte.c:561-563 | as `Device.Request` on the found device: `-ENODEV` without a module reference and nothing changes; an id not below `nlines` is refused with `-EINVAL` and the table is unchanged; otherwise the record becomes the `RequestEntry` step; a granted line is registered with the consumer's callbacks, data and name, `ts_req` and the module count grow by one, and the descriptor points at it; a refusal leaves the descriptor and counters unchanged; the list and all devices stay valid |
| `HteRegistry.Registry.XlateAndRequest` | drivers/hte/hte.c:557-566 | translation then request on the found device; a provider id equal to `nlines` is refused; success grants exactly the line the translation picks (`GrantedTranslated`: the descriptor points at it and it is registered with the consumer's callbacks and data, `ts_req` and the module count grow by one) and leaves every other line of the device unchanged; a refusal is negative and leaves the table unchanged except for the ids stamped into records, the counters and the descriptor's name |
| `HteRegistry.Registry.RequestByHteName` | drivers/hte/hte.c:659-699 | `-EINVAL` without node, property, descriptor or primary callback; `-ENODEV` if the phandle does not resolve; `-ENOTSUPP` if no device sits on it; success grants, on the first device in list order on that node, the line its translation picks with no arguments, with the consumer's callbacks and data stored, and changes no other device; a refusal is negative and leaves every device's table (up to stamped ids) and `ts_req` unchanged |
| `HteRegistry.Registry.RequestOnNode` | drivers/hte/hte.c:548-566 | the common tail of both request paths: the error the caller names when no device on the node has a chip; otherwise translation and request on the first matching device, with the same success and refusal guarantees as `OfRequestTs` |
| `HteRegistry.Registry.OfRequestTs` | drivers/hte/hte.c:540-571 | `-EINVAL` without device, node, descriptor or callback (the check of line 607); a provider id equal to `nlines` is refused; the parse error if the specifier does not parse; `-ENODEV` if no device sits on its node; success grants, on the first device in list order on the specifier's node, the line its translation picks from the specifier's arguments, with the consumer's callbacks and data stored, and changes no other device; a refusal is negative and leaves every device's table (up to stamped ids) and `ts_req` unchanged |
| `TegraBits.NoBitOfZero` | drivers/hte/hte-tegra194.c:358 | zero has no bit set, so the decoding loop stops |
| `TegraBits.NoBitAbove` | drivers/hte/hte-tegra194.c:356-358 | a 32-bit word has no bit at or above 32 |
| `TegraBits.XorBit` | drivers/hte/hte-tegra194.c:356 | bit `j` of `pv ^ cv` is set iff `pv` and `cv` differ there |
| `TegraBits.XorBound` | drivers/hte/hte-tegra194.c:356 | `^` of two 32-bit words is a 32-bit word |
| `TegraBits.Ctz` | drivers/hte/hte-tegra194.c:359 | `__builtin_ctz` returns a set bit |
| `TegraBits.CtzLowest` | drivers/hte/hte-tegra194.c:359 | every bit below `ctz` is clear |
| `TegraBits.CtzBound` | drivers/hte/hte-tegra194.c:359 | `ctz` of a non-zero 32-bit word is below 32 |
| `TegraBits.SetBitAt` | drivers/hte/hte-tegra194.c:306 | ORing in `BIT(i)` sets bit `i` and keeps every other bit |
| `TegraBits.ClearBitAt` | drivers/hte/hte-tegra194.c:308 | `v & ~BIT(i)` clears bit `i` and keeps every other bit |
| `TegraBits.SetBitFits` | drivers/hte/hte-tegra194.c:304-309 | setting or clearing a bit keeps a register within 32 bits |
| `TegraMap.AonTableLayout` | drivers/hte/hte-tegra194.c:158-199 | GPIOs 12-15 and 27-31 have no line; AA/BB map to slice 2 bits 11..0, CC/DD to bits 22..12, EE_2..EE_6 to bits 27..23, EE_0/EE_1 to slice 1 bits 13/12 |
| `TegraMap.AonLinesDistinct` | drivers/hte/hte-tegra194.c:158-199 | the valid AON GPIOs have pairwise distinct lines |
| `TegraMap.AonLinesRange` | drivers/hte/hte-tegra194.c:158-199 | every mapped AON line is in slice 2 bits 0-27 or slice 1 bits 12-13 |
| `TegraMap.AonLineSplits` | drivers/hte/hte-tegra194.c:292-294 | a mapped line splits back into its table slice and bit as the enable path computes them |
| `TegraMap.MapIndexCheckAdmitsEnd` | drivers/hte/hte-tegra194.c:224 | the as-written guard `eid > map_sz` admits `eid == map_sz`, one past the table |
| `TegraMap.MapToLineId` | drivers/hte/hte-tegra194.c:217-235 | without a table the id is unchanged; with the AON table success iff the GPIO has a line, and then the id is `slice * 32 + bit`; failure is `-EINVAL` with nothing stored |
| `TegraMap.MapToLineIdInjective` | drivers/hte/hte-tegra194.c:217-235 | distinct AON GPIOs never map to the same line |
| `TegraMap.XlateConId` | drivers/hte/hte-tegra194.c:246-253 | with cells: at least one cell and a matching count, then `con_id = args[0]`; otherwise `-EINVAL` and `con_id` unchanged |
| `TegraMap.TegraXlateAsWritten` | drivers/hte/hte-tegra194.c:237-271 | the as-written translation meets only the documented contract |
| `TegraMap.TegraXlateAsWrittenOverruns` | drivers/hte/hte-tegra194.c:264 | on a two-slice AON instance GPIO BB_3 maps to line 64 and the as-written check hands it out |
| `TegraMap.TegraXlate` | drivers/hte/hte-tegra194.c:237-271 | the corrected translation meets the table contract; succeeds iff the cell checks pass, the mapping succeeds and the line is below `nlines`; the id is the mapped line |
| `TegraMap.TegraXlateDiffersOnlyAtEnd` | drivers/hte/hte-tegra194.c:264 | corrected and as-written translations differ exactly on the mapped id `nlines` |
| `TegraFifo.ClkSrcInfo` | drivers/hte/hte-tegra194.c:329-338 | always returns 0 with `CLOCK_MONOTONIC` |
| `TegraFifo.TicksToNanoseconds` | drivers/hte/hte-tegra194.c:22-25 | the shift `HTE_TS_NS_SHIFT` multiplies by 32, and ticks shifted by it, times the reported 31.25 MHz, are ticks times 10^9: the ns timestamps agree with the reported clock |
| `TegraFifo.SliceOf` | drivers/hte/hte-tegra194.c:353-354 | the slice field of `TESRC` is below 256 |
| `TegraFifo.EventAt` | drivers/hte/hte-tegra194.c:360-366 | the event for bit `b` is on line `slice * 32 + b` and rising iff bit `b` of `pv` is set |
| `TegraFifo.BitEventsSkip` | drivers/hte/hte-tegra194.c:358-369 | clear bits contribute no event |
| `TegraFifo.BitEventsAgree` | drivers/hte/hte-tegra194.c:358-369 | words agreeing on the remaining bits give the same events |
| `TegraFifo.BitEventsNone` | drivers/hte/hte-tegra194.c:358 | a zero word gives no events |
| `TegraFifo.PopLowest` | drivers/hte/hte-tegra194.c:359-369 | the lowest set bit's event comes first, clearing that bit leaves the other bits' events, and the word gets smaller |
| `TegraFifo.BitEventsMembers` | drivers/hte/hte-tegra194.c:358-369 | bit `b`'s event is reported iff `b` is set |
| `TegraFifo.BitEventsInSlice` | drivers/hte/hte-tegra194.c:365 | every event is on a line of the entry's slice |
| `TegraFifo.PrependAscending` | drivers/hte/hte-tegra194.c:359 | an event below all lines of an ascending run keeps it ascending |
| `TegraFifo.BitEventsAscending` | drivers/hte/hte-tegra194.c:359 | events come out in strictly ascending line order |
| `TegraFifo.EntryEventsExact` | drivers/hte/hte-tegra194.c:347-376 | an entry reports exactly the lines whose bit differs between `pv` and `cv`, once each, ascending, all in its slice, with the direction and time of `EventAt` |
| `TegraFifo.EntryEventShape` | drivers/hte/hte-tegra194.c:365 | each reported event is the event of its own bit within the entry's slice |
| `TegraHte.SliceShift` | drivers/hte/hte-tegra194.c:278 | `__builtin_ctz(HTE_SLICE_SIZE)` is 5: a slice is 32 lines |
| `TegraHte.TectrlFields` | drivers/hte/hte-tegra194.c:475-478 | the probe's control word sets ENABLE (bit 0) and INTR_ENABLE (bit 1) and holds the threshold, truncated to 24 bits, from bit 8 up |
| `TegraHte.GOps` | drivers/hte/hte-tegra194.c:395-401 | every hook of `g_ops` is filled in |
| `TegraHte.EnDisTouchesOneBit` | drivers/hte/hte-tegra194.c:285-311 | `-EINVAL` iff the line is out of range; `-EBUSY` iff its slice is suspended, and then nothing is written; otherwise only the slice's `TETEN` changes, and in it only the line's bit, set for enable and cleared for disable |
| `TegraHte.EnDisLastWins` | drivers/hte/hte-tegra194.c:304-309 | of two calls on one line the later decides the register: repeats are idempotent, release after request equals release alone |
| `TegraHte.XlatedLineIsEnabled` | drivers/hte/hte-tegra194.c:264 | a line the corrected translation hands out is never refused by the enable path as out of range |
| `TegraHte.EnDisCheckAdmitsEnd` | drivers/hte/hte-tegra194.c:285 | with `nlines = slices << 5` the as-written guard admits line `nlines`, whose slice index equals the slice count |
| `TegraHte.SavedSlices` | drivers/hte/hte-tegra194.c:515-532 | after suspend the first `nlines >> 5` slices hold their `TETEN` word and are marked suspended; the others are unchanged |
| `TegraHte.ResumedSlices` | drivers/hte/hte-tegra194.c:494-513 | after resume the first `nlines >> 5` slices are no longer suspended; the saved words are kept |
| `TegraHte.RestoreRegs` | drivers/hte/hte-tegra194.c:494-513 | resume's writes only add `TECTRL` and enable registers to the register file |
| `TegraHte.TetenBelowStep` | drivers/hte/hte-tegra194.c:504-507 | enable registers of the first `n` slices are those of the first `n - 1` plus slice `n - 1`'s |
| `TegraHte.RestoreRegsAt` | drivers/hte/hte-tegra194.c:494-513 | after resume `TECTRL` holds the saved control word, each enable register its slice's saved word, and every other register its old value |
| `TegraHte.SuspendResumeRestores` | drivers/hte/hte-tegra194.c:494-532 | suspend then resume restores `TECTRL` and every slice's `TETEN` to what suspend read, whatever the registers held in between, and clears every suspend flag |
| `TegraHte.SuspendResumeIdentity` | drivers/hte/hte-tegra194.c:494-532 | with no change while asleep, suspend then resume leaves the register file exactly as it was |
| `TegraHte.SuspendBlocksEnDis` | drivers/hte/hte-tegra194.c:296-302 | while suspended every enable or disable of an existing line gives `-EBUSY` and writes nothing; after resume none does |
| `TegraHte.OccupancyDecodes` | drivers/hte/hte-tegra194.c:347-349 | the occupancy field read back from `TESTATUS` is the number of entries in the FIFO |
| `TegraHte.AppendOne` | drivers/hte/hte-tegra194.c:371 | moving one pushed event from the pending part to the emitted part keeps the whole sequence |
| `TegraHte.DecodeEntry` | drivers/hte/hte-tegra194.c:350-370 | the inner loop pushes exactly `EntryEvents` of the head entry, one per changed bit, lowest first |
| `TegraHte.TegraHteSoc.constructor` | drivers/hte/hte-tegra194.c:403-482 | `nlines = (slices << 5)` mod 2^32, `g_ops`, the provider translation and one cell; the threshold defaults to 1; every slice's flags cleared; `TECTRL` programmed with `TectrlValue` |
| `TegraHte.TegraHteSoc.EnDisCommon` | drivers/hte/hte-tegra194.c:273-317 | return value and registers are those of `EnDisSpec`; the object invariant is kept |
| `TegraHte.TegraHteSoc.Request` | drivers/hte/hte-tegra194.c:319-322 | `EnDisSpec` with the bit set |
| `TegraHte.TegraHteSoc.Release` | drivers/hte/hte-tegra194.c:324-327 | `EnDisSpec` with the bit cleared |
| `TegraHte.TegraHteSoc.CallOp` | drivers/hte/hte-tegra194.c:395-401 | request and enable set the line's bit, release and disable clear it |
| `TegraHte.TegraHteSoc.ReadFifo` | drivers/hte/hte-tegra194.c:340-377 | the events pushed are `FifoEvents` of the FIFO, oldest entry first; one POP per entry; the FIFO ends empty; `TECMD` is written iff there was an entry |
| `TegraHte.TegraHteSoc.Isr` | drivers/hte/hte-tegra194.c:379-386 | drains the FIFO as `ReadFifo` does and reports the interrupt handled |
| `TegraHte.TegraHteSoc.SuspendLate` | drivers/hte/hte-tegra194.c:515-532 | `conf_rval` holds `TECTRL` and the slice array becomes `SavedSlices` of the registers |
| `TegraHte.TegraHteSoc.ResumeEarly` | drivers/hte/hte-tegra194.c:494-513 | registers become `RestoreRegs` of the saved words, and the slice array becomes `ResumedSlices` |
| `TegraHte.TegraHteSoc.Remove` | drivers/hte/hte-tegra194.c:484-491 | `TECTRL` is written 0, then the chip is unregistered and that result returned: `-EINVAL` without a chip, otherwise 0 with the chip's device taken out of the list at its position and unlinked |

## Left out

- Locks, threads and scheduling are left out. Mutexes, spinlocks,
  `kthread_create`/`kthread_stop`/`wake_up_process` and IRQ masking are not
  modelled. Each API call is one atomic step, the worker thread is an
  opaque handle, and its wake-up is the run flag.
- debugfs files and directories are left out: they are observability only.
- Devicetree parsing is left out. `of_parse_phandle*`, `of_property_*`,
  `of_hte_dev_get`'s name lookup and node reference counts become inputs:
  the parsed specifier or its error, and the resolved phandle.
- The devm wrappers, the `driver->owner` module selection and platform
  driver registration are left out: they are resource bookkeeping. The
  argument checks of `devm_of_hte_request_ts` are kept in
  `Registry.OfRequestTs`.
- Allocation, `try_module_get` and thread creation are not modelled as
  mechanisms. Their outcomes are parameters (`allocOk`, `moduleGot`,
  `spawn`, `nameAlloc`).
- `readl`/`writel` are not modelled as bus accesses. The register file is a
  map from offset to 32-bit word.
- `TESTATUS` is modelled only through its occupancy field, computed from the
  FIFO contents. `TETSCH`/`TETSCL`/`TESRC`/`TEPCV`/`TECCV` are the fields of
  the FIFO's head entry.
- The probe's platform steps are left out: the `slices` property missing
  (`-EINVAL`), `ioremap`, `platform_get_irq` and `devm_request_irq`. The
  constructor starts once these have succeeded.
- `TegraHte.TegraHteSoc.constructor` does not model the result of
  `hte_register_chip`. Probe ignores it, and probe registers the chip before
  it clears the slice flags and programs `TECTRL`. Registration is a separate
  step of the core, `Registry.RegisterChip`. The window in which a
  consumer could reach the chip before the flags are cleared is not
  modelled.
- `hte_push_ts_ns_atomic`, which the FIFO reader calls, is not declared by
  the core's header and is not part of this model. The FIFO reader's
  output is the sequence of `(line, direction, ns)` events it would push.
- `TegraHte.TegraHteSoc.EnDisCommon` does not model the `!chip` check: the
  object always holds its chip.
- The threaded callback's own work and the consumer's callback are left
  out. The primary callback's result is an input, and a threaded callback
  run is counted.
- `HteCore.EnDisCommon` refuses a line whose chip has been unregistered
  with `-ENOTSUPP`, the outcome it gives for a missing hook; the code would
  dereference the cleared `gdev->chip`. Unregistering a chip while its
  lines are still held is outside the core's contract.
- `HteCore.GetClkSrcInfo` takes the provider hook's result as input.
  `TegraFifo.ClkSrcInfo` is the Tegra hook itself.
- `hte_unregister_chip` frees the device memory. That is not modelled: the
  device object is only unlinked.
- The two Tegra demo drivers, `hte-tegra194-gpio-test.c` and
  `hte-tegra194-irq-test.c`, are not part of this model. They are consumers
  built on GPIO, timers and sysfs, with no core logic.

## Findings

| source | as written | input that shows it | evidently intended | confidence | as-written member | corrected member |
|---|---|---|---|---|---|---|
| drivers/hte/hte.c:757 | `xlated_id > chip->nlines` rejects only ids above the table size before `ei[xlated_id]` is read | `xlated_id == nlines`: the record one past the `nlines`-entry table is read and written | reject `xlated_id >= nlines` | high, not executed | `HteCore.PushIdCheckAdmitsEnd` | `HteCore.PushTsNs` |
| drivers/hte/hte.c:357 | `hte_simple_xlate` rejects only `con_id > nlines` | `con_id == nlines` without cells: success with id `nlines`, which indexes no record of `ei[]` | reject `con_id >= nlines` | high, not executed | `HteCore.SimpleXlateAsWrittenOverruns` | `HteCore.SimpleXlate` |
| drivers/hte/hte.c:668 | `hte_req_ts_by_hte_name` checks the node, the property name and the descriptor, but not `cb` | a by-name request with `cb == NULL`: the line is granted and the next push calls `ei->cb` (line 774) through NULL | refuse a NULL `cb` with `-EINVAL`, as `devm_of_hte_request_ts` does at line 607 | high, not executed | `HteRegistry.ByNameNullCallbackRegisters` | `HteRegistry.Registry.RequestByHteName` |
| drivers/hte/hte.c:423 | `___hte_req_ts` reads `gdev->ei[xlated_id]` with no bound check, while the header documents translation results from 0 to `nlines` inclusive | a translation returning `nlines` (the as-written Tegra translation on a two-slice instance, GPIO BB_3): the record one past the table is read and written | refuse an id not below `nlines` before the lookup | high, not executed | `HteRegistry.DocumentedXlateReachesPastTable` | `HteCore.Device.Request` |
| drivers/hte/hte.c:261 | `hte_ts_dis_en_common` calls `ops->enable` / `ops->disable` unchecked, while `hte_register_chip` (lines 801-804) demands only `request` and `release` | a chip registered with only `request` and `release`; a consumer disables an enabled line: the missing `disable` hook is called | refuse with `-ENOTSUPP`, as `hte_get_clk_src_info` does for its optional hook | medium, not executed | `HteCore.EnDisHookUnchecked` | `HteCore.EnDisCommon` |
| drivers/hte/hte.c:441-453 | a request refused after `_hte_setup_thread` leaves `cb`, `tcb` and the worker in the record; a later request stores `tcb = NULL` but keeps `ei->thread` | a threaded request refused by the provider, then a request without `tcb`, then a push returning `HTE_RUN_THREADED_CB`: line 775 sees `ei->thread` and wakes the worker, which calls `ei->tcb` (line 394) through NULL | unwind a refused request: clear the callbacks and stop the worker it created | medium, not executed | `HteEntry.LeftoverWorkerWokenWithoutTcb` | `HteEntry.RequestEntry` |
| drivers/hte/hte-tegra194.c:224 | `eid > map_sz` rejects only indices above the table size before `m[eid]` is read | `eid == 39` on the AON instance reads one entry past the 39-entry table | reject `eid >= map_sz` | high, not executed | `TegraMap.MapIndexCheckAdmitsEnd` | `TegraMap.MapToLineId` |
| drivers/hte/hte-tegra194.c:264 | `*xlated_id > gc->nlines` rejects only ids above the line count | two-slice AON instance (`nlines == 64`), GPIO BB_3 (index 11) maps to slice 2 bit 0 = line 64, and the translation succeeds | reject `*xlated_id >= nlines` | high, not executed | `TegraMap.TegraXlateAsWrittenOverruns` | `TegraMap.TegraXlate` |
| drivers/hte/hte-tegra194.c:285 | `line_id > chip->nlines` rejects only ids above the line count before `gs->sl[slice]` is read | `line_id == nlines`: `slice = nlines >> 5` equals the slice count, one past the `sl[]` array | reject `line_id >= nlines` | high, not executed | `TegraHte.EnDisCheckAdmitsEnd` | `TegraHte.TegraHteSoc.EnDisCommon` |
