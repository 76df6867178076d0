# Virtqueues, log transports and a syscall filter, proved

A Dafny 4.11 model of the split-virtqueue stack under `project_1/vhost`, of the log
transports and the MMIO log device of `project_1`, and of the seccomp filter generator
of `project_2/runtime`, with proofs of what they promise. `dafny verify dfyconfig.toml`
checks everything.

## How it is built

Code that updates things in place is modelled in place: classes with arrays and fields,
loops with invariants. Each method is proved against a function or predicate that says
what the operation does to the whole state, and the results are proved about those
functions, over all inputs and over all runs.

| files | what they cover |
|---|---|
| `Machine` | machine words, bytes, optional values |
| `Ring16` | 16-bit ring indices and `vring_need_event`, against unbounded counters |
| `SplitQueue`, `VirtQueue` | every store of the device side of a queue; the class `VuVirtq` that performs them |
| `CrashProtocol`, `CrashSafety`, `CrashOrder`, `CrashRuns`, `CrashSteps`, `CrashExamples` | in-flight crash recovery as a step system: driver, process, a crash between any two stores, recovery that may itself crash |
| `QueueRuns` | bookkeeping over runs of pop, push, fill, flush, unpop, rewind and notify, with and without event indices, and the completions those runs leave |
| `Interrupts` | interrupt suppression over runs of flushes and notify checks, whatever else happens |
| `Wakeup`, `KickSteps`, `WakeupKicks` | driver and `tx_kick` interleaved store by store, and `tx_kick` as a function of what it reads |
| `GuestMemory` | the region table, its in-place removal, the two address translators |
| `Descriptors`, `VirtqHandler`, `RecordBytes`, `WalkEnds`, `VirtqRuns`, `ChainFifo` | `vlog_virtq_handle`: the descriptors and bytes a driver stores, the chain walk, the ring loop, `tx_kick`, whole runs |
| `DescriptorMap`, `DescriptorMeaning`, `AvailBytes`, `AvailPops` | `vu_queue_map_desc` and `vu_queue_avail_bytes` |
| `DirtyLog` | the dirty-page bitmap |
| `LogStore`, `WireFormat`, `LineSplitter`, `RetryBuffer` | the log file text, the wire line and its two parsers, the listener, the sender's retry buffer |
| `LogDevice` | the MMIO log device together with its guest library |
| `Seccomp` | the filter generator, against a BPF interpreter |

## Findings

Where the code does not do what is asked of it everywhere, the code is kept as it is, an
input at which it fails is given, and the exact condition is proved.

- `vu_queue_push` on a broken device, or when its own dirty-log walk breaks the device,
  clears the in-flight record without completing the chain: the chain is lost
  (`CrashRuns.PushKeepsChainIff`; `CrashExamples.BrokenPushLoses`,
  `CrashExamples.PanickingPushLoses`).
- `vu_check_queue_inflights` adds to the `inuse` it finds, so it is right only in a
  process whose count is zero modulo 2^16 (`CrashRuns.RecoveryNeedsFreshCount`;
  `CrashExamples.LeftoverCountSkips`).
- `inflight_desc_compare` is not an order beyond a window of 2048 counter values
  (`SplitQueue.ConsistentIffWindow`; `SplitQueue.NoOrderFarApart`).
- The `n == 0` exit of `tx_kick` is safe only because `avail_event` starts out equal to
  the queue's index; from any other value a chain is stranded (`Wakeup.SafeIffEventMatches`;
  `Wakeup.LostWakeup`).
- The inner loop of `vlog_virtq_handle` never ends on an indirect table whose entry 0 is
  indirect and leads back to it; `WalkEnds.WalkEndsIff` and `VirtqHandler.HaltsIff` say
  exactly which walks end (`VirtqHandler.EndlessWalk`).
- `vu_gpa_to_va` accepts a range that runs past 2^64 and comes back at or below its
  region's end; `virtq_gpa_to_hva` does not (`GuestMemory.TranslatorsAgreeIff`,
  `DescriptorMeaning.WrappedPiece`; `GuestMemory.TranslatorsDisagree`).
- `vu_log_write` marks the wrong pages when its range passes 2^64; a range that ends
  there exactly fails the assertion instead (`DirtyLog.VisitsExactIff`,
  `DirtyLog.LoggedRightIff`; `DirtyLog.WrongPages`).
- `vu_queue_get_avail_bytes` sums in 32 bits: a yes is never wrong, a no can be once a
  direction reaches 2^32 bytes (`AvailBytes.AvailableIff`, `AvailBytes.AvailableExact`;
  `AvailBytes.SumWraps`).
- A partial write of a fresh line makes the retry buffer repeat the part already sent
  (`RetryBuffer.FaithfulIff`; `RetryBuffer.PartialWriteRepeats`).
- The sink strips trailing carriage returns, the listener does not
  (`WireFormat.TransportsAgreeIff`; `WireFormat.ReturnIsLost`).
- A message with a newline followed by what could be a record's header reads as two
  records in the log file; no other message does (`LogStore.ForgesIff`;
  `LogStore.NewlineForges`).

The code and the repository's own documentation disagree in three places; the model
follows the code. By the documentation of LOG the address of an empty message is not
examined; the device refuses a null one (`LogDevice.LogMeetsContractIff`). By that of
STAT only the eight bytes of the result need to be in RAM; the device crashes when the
rest of the offered buffer runs past the end of RAM (`LogDevice.Device.VlogStat`, `LogDevice.OverrunHappens`). A
successful LOG command does not itself clear ERROR; it is clear because the operand
writes before it cleared it (`LogDevice.Device.CommandLog`).

## Model

| member | source | states |
|---|---|---|
| Ring16.NeedEventExact | project_1/vhost/standard-headers/linux/virtio_ring.h:220-228 | the 16-bit test fires if and only if some unbounded counter value behind event_idx lies among the new entries |
| Ring16.SlotOfWrapped | project_1/vhost/virtio.c:118-123 | a 16-bit index names the same ring slot as the unbounded counter behind it |
| SplitQueue.ConsistentIffWindow | project_1/vhost/libvhost-user.c:1247-1259 | the comparison orders a list exactly when its counters are distinct and lie within 2048 of each other |
| SplitQueue.NoOrderFarApart | project_1/vhost/libvhost-user.c:1247-1259 | two heads recorded 2048 pops apart are each put before the other |
| SplitQueue.EntriesExact | project_1/vhost/libvhost-user.c:1307-1314 | the listing loop yields each flagged head once, in index order, with its counter |
| SplitQueue.EntriesCount | project_1/vhost/libvhost-user.c:1293-1314 | the listing loop finds as many heads as the counting loop counted |
| SplitQueue.FlagsFit | project_1/vhost/libvhost-user.c:1301-1314 | with flags of 0 and 1 and a count that does not wrap, the list fits its allocation |
| SplitQueue.PopUntracked | project_1/vhost/libvhost-user.c:2872-2909 | without a record and a resubmission list a pop is its ring part |
| SplitQueue.PopPanicsIff | project_1/vhost/libvhost-user.c:2872-2909 | a pop panics exactly when something is pending and the ring is full, the head is out of range or the chain does not map; only a head that was read is passed over |
| SplitQueue.BrokenIsInert | project_1/vhost/libvhost-user.c:2852-3072 | on a broken device the queue reads as empty and pop, fill, flush and an untracked push leave it alone, while a tracked push still clears the chain's entry |
| SplitQueue.PushPanics | project_1/vhost/libvhost-user.c:3010-3072 | without a record, a push on a broken device changes nothing, and one whose log walk panics writes the element and leaves it invisible |
| SplitQueue.QsortOk | project_1/vhost/libvhost-user.c:1316-1319 | the stand-in sort is a permutation, and sorted whenever the comparison is an order |
| VirtQueue.VuVirtq.QueueEmpty | project_1/vhost/libvhost-user.c:2488-2503 | the answer and the refreshed cached index, and nothing else changed |
| VirtQueue.VuVirtq.InflightGet | project_1/vhost/libvhost-user.c:2797-2812 | the counter store, then the flag store, and the next counter |
| VirtQueue.VuVirtq.TakeHead | project_1/vhost/libvhost-user.c:2876-2896 | the whole queue after the emptiness, size and head checks, panics included, and the head taken |
| VirtQueue.VuVirtq.MapPopped | project_1/vhost/libvhost-user.c:2898-2908 | the mapped chain is counted and recorded; a failed mapping breaks the device |
| VirtQueue.VuVirtq.Pop | project_1/vhost/libvhost-user.c:2852-2909 | the element is the mapping of the next head, resubmissions first; the whole queue afterwards |
| VirtQueue.VuVirtq.Unpop | project_1/vhost/libvhost-user.c:2919-2925 | index and count go back by one, with wrap |
| VirtQueue.VuVirtq.Rewind | project_1/vhost/libvhost-user.c:2927-2936 | index and count go back by n if n is at most inuse, else nothing changes |
| VirtQueue.VuVirtq.UsedWrite | project_1/vhost/libvhost-user.c:2938-2948 | the used slot is stored and its pages are marked |
| VirtQueue.VuVirtq.LogQueueFill | project_1/vhost/libvhost-user.c:2951-3008 | the bitmap gains exactly the walked ranges; reports a panic exactly when the walk does |
| VirtQueue.VuVirtq.Fill | project_1/vhost/libvhost-user.c:3010-3029 | used element, panic of the log walk, bitmap; nothing on a broken device |
| VirtQueue.VuVirtq.UsedIdxSet | project_1/vhost/libvhost-user.c:3031-3040 | used->idx is stored, its pages are marked, and used_idx follows |
| VirtQueue.VuVirtq.Flush | project_1/vhost/libvhost-user.c:3042-3062 | indices, count, validity of signalled_used and bitmap after a flush; nothing on a broken device |
| VirtQueue.VuVirtq.InflightPrePut | project_1/vhost/libvhost-user.c:2814-2828 | last_batch_head names the chain |
| VirtQueue.VuVirtq.InflightPostPut | project_1/vhost/libvhost-user.c:2830-2850 | flag cleared, then the record's used_idx caught up |
| VirtQueue.VuVirtq.Push | project_1/vhost/libvhost-user.c:3064-3072 | the whole queue after fill, record, flush, record, and the pages marked |
| VirtQueue.VuVirtq.PushMarksExactly | project_1/vhost/libvhost-user.c:2938-3040 | the pages a push marks are those of the first len device-writable bytes, of the used slot and of used->idx, and no others |
| VirtQueue.VuVirtq.Notify | project_1/vhost/libvhost-user.c:2505-2540 | the interrupt decision and its bookkeeping |
| VirtQueue.VuVirtq.RepairRecord | project_1/vhost/libvhost-user.c:1285-1291 | a record that lags the used ring loses its last batch head |
| VirtQueue.VuVirtq.CountInflights | project_1/vhost/libvhost-user.c:1293-1297 | inuse grows by the number of flagged heads |
| VirtQueue.VuVirtq.ListInflights | project_1/vhost/libvhost-user.c:1307-1314 | the flagged heads with their counters |
| VirtQueue.VuVirtq.CheckInflights | project_1/vhost/libvhost-user.c:1261-1329 | the whole queue after recovery, whatever the count and the flags were, as long as the list fits its allocation |
| VirtQueue.VuVirtq.QueueAvailBytes | project_1/vhost/libvhost-user.c:2365-2486 | the answer of the scan, a panic on a corrupt ring, the refreshed cached index |
| CrashSteps.PopIsSteps | project_1/vhost/libvhost-user.c:2852-2909 | uninterrupted, the stores of the crash protocol are a pop, and the head becomes held |
| CrashSteps.PushIsSteps | project_1/vhost/libvhost-user.c:3064-3072 | on a sound device whose log walk does not panic, the stores of the crash protocol, uninterrupted, are a push, and the chain becomes completed |
| CrashSteps.RecoverIsSteps | project_1/vhost/libvhost-user.c:1261-1329 | uninterrupted, the steps of the crash protocol are the recovery, with a legal sort |
| CrashRuns.ExactlyOnce | project_1/vhost/libvhost-user.c:2797-2909 | in every run with crashes between any two stores, each published chain is in exactly one of not yet popped, in flight, completed, and is on the used ring at most once |
| CrashRuns.HistoryGrows | project_1/vhost/libvhost-user.c:3010-3072 | no step undoes a publication or a completion |
| CrashRuns.RecoveryExact | project_1/vhost/libvhost-user.c:1261-1329 | the resubmission list is exactly the in-flight set and last_avail_idx names the first chain never recorded |
| CrashRuns.RunInv | project_1/vhost/libvhost-user.c:1261-1329 | the invariant tying memory, record and process to the history holds in every run |
| CrashRuns.ResubmitInOrder | project_1/vhost/libvhost-user.c:1247-1329 | across any number of crashes, pops hand out in-flight chains in publication order, then continue with the ring, and later counters exceed surviving ones |
| CrashRuns.PushKeepsChainIff | project_1/vhost/libvhost-user.c:3010-3072 | a push keeps its chain in flight or completed if and only if the device is not broken before it or by its log walk |
| CrashRuns.RecoveryNeedsFreshCount | project_1/vhost/libvhost-user.c:1293-1299 | recovery sets last_avail_idx right if and only if the process's count was a multiple of 2^16 |
| CrashExamples.BrokenPushLoses | project_1/vhost/libvhost-user.c:3064-3072 | a run in which a chain that fails to map breaks the device and a push then loses another chain |
| CrashExamples.PanickingPushLoses | project_1/vhost/libvhost-user.c:3020-3072 | the same loss when the log walk panics inside the push |
| CrashExamples.LeftoverCountSkips | project_1/vhost/libvhost-user.c:1293-1299 | a run after which recovery with one element still counted skips a chain never popped |
| QueueRuns.Bookkeeping | project_1/vhost/libvhost-user.c:2490-2503 | in every run inuse is the 16-bit distance of the indices and at most num, the cached index lies between them, emptiness is the direct comparison |
| QueueRuns.EmptyExact | project_1/vhost/libvhost-user.c:2490-2503 | the fast path answers as the direct comparison, which is exactly whether all chains are popped |
| QueueRuns.PopExact | project_1/vhost/libvhost-user.c:2872-2909 | with and without event indices, a pop returns the next chain in publication order and never panics; last_avail_idx counts the chains popped, avail_event follows it or stays |
| QueueRuns.PushExact | project_1/vhost/libvhost-user.c:3064-3072 | a push without a record makes one more completion visible, leaves one element fewer in use, and its slot holds the head and length |
| QueueRuns.PopManyExact | project_1/vhost/libvhost-user.c:2872-2909 | n pops return the next n chains in order, with and without event indices |
| QueueRuns.RewindThenPop | project_1/vhost/libvhost-user.c:2927-2936 | rewinding n and popping n returns the same heads and restores the queue, with and without event indices |
| QueueRuns.PopRewindPop | project_1/vhost/libvhost-user.c:2852-2936 | popping, rewinding and popping again returns the same heads |
| QueueRuns.CompletionsHold | project_1/vhost/libvhost-user.c:3010-3072 | in every run of pushes, fills and flushes the used ring holds the heads and lengths of the unread completions in order, and used->idx counts them |
| Interrupts.OutrunExact | project_1/vhost/libvhost-user.c:3054-3061 | the 16-bit test in a flush drops validity exactly at 2^15 completions, for every count below 2^16 |
| Interrupts.RunInv | project_1/vhost/libvhost-user.c:3042-3062 | in every run signalled_used is valid only while fewer than 2^15 completions were made since it was set |
| Interrupts.InterruptExact | project_1/vhost/libvhost-user.c:2505-2529 | over any run of flushes of fewer than 2^16, notify checks, restarts and anything else, an unbroken device interrupts exactly on notified emptiness, without event indices unless the driver asked for silence, and with them unless signalled_used is valid and used_event names none of the completions since |
| Wakeup.NoLostWakeup | project_1/vhost/backend.c:116-141 | under every interleaving of driver and device stores, when both are at rest and no kick is pending, every published chain has been served |
| Wakeup.SafeIffEventMatches | project_1/vhost/backend.c:121-141 | with event indices this holds if and only if avail_event starts at the queue's index |
| Wakeup.LostWakeup | project_1/vhost/backend.c:137-138 | otherwise one publication and one check leave a chain stranded |
| WakeupKicks.WakeToRestIsTxKick | project_1/vhost/backend.c:116-141 | from a wake to the next rest, however driver steps fall in between, the device steps do one tx_kick on the values of avail->idx there were to read |
| GuestMemory.VuDev.VuGpaToVa | project_1/vhost/libvhost-user.c:198-222 | the first region that contains the address, the length cut at its end |
| GuestMemory.VuDev.BuildMem | project_1/vhost/backend.c:69-81 | the handler's map is the table, region by region |
| GuestMemory.VuDev.CloseHole | project_1/vhost/libvhost-user.c:883-888 | the memmove drops one entry, keeps the order and zeroes the freed one |
| GuestMemory.VuDev.VuRemMemReg | project_1/vhost/libvhost-user.c:839-903 | the table becomes its filter, adjacent duplicates included, with a zeroed tail; a miss breaks the device |
| GuestMemory.WithoutExact | project_1/vhost/libvhost-user.c:827-838 | the filter keeps exactly the regions that differ from the request in guest address, user address or size |
| GuestMemory.WithoutOfBoth | project_1/vhost/libvhost-user.c:839-903 | the filter goes through the table in order, each region kept or dropped by itself |
| GuestMemory.RemovalKeepsSurvivors | project_1/vhost/libvhost-user.c:198-222 | translation through a region that differs in guest address, user address or size is unchanged by a removal |
| GuestMemory.TranslationMeans | project_1/vhost/libvhost-user.c:198-222 | the pointer lies as far into the first region's mapping as the address into the region, with the length up to the region's end |
| GuestMemory.VirtqGpaToHva | project_1/vhost/virtio.c:82-105 | the search loop returns the first region's pointer for a range wholly inside it |
| GuestMemory.TranslatorsAgreeIff | project_1/vhost/virtio.c:82-105 | for disjoint regions both translators agree on every range if and only if it does not wrap past 2^64 unnoticed |
| GuestMemory.TranslatorsDisagree | project_1/vhost/libvhost-user.c:198-222 | a region near 2^64 and a range one translator accepts and the other refuses |
| Descriptors.StoredDescReads | project_1/vhost/standard-headers/linux/virtio_ring.h:105-110 | a descriptor read from the 16 bytes the driver stored is that descriptor, every bit of its four little-endian fields |
| Descriptors.StoredTableReads | project_1/vhost/virtio.c:136-144 | entry k of a stored table is the k-th descriptor stored |
| Descriptors.FlagBits | project_1/vhost/standard-headers/linux/virtio_ring.h:39-43 | NEXT, WRITE and INDIRECT are bits 0, 1 and 2, whatever the other flags |
| VirtqHandler.AppendPayload | project_1/vhost/virtio.c:148-163 | a data descriptor's bytes are appended as far as they fit; a writable or unmapped one adds nothing |
| VirtqHandler.WalkChain | project_1/vhost/virtio.c:126-173 | the inner loop assembles the chain's record whenever its walk ends |
| VirtqHandler.RecordMeaning | project_1/vhost/virtio.c:126-173 | the walk ends within num links on any table without nested indirection, and its record is the first 4096 bytes of what the chain's descriptors contribute; RecordBytes says which bytes those are |
| VirtqHandler.ChainLength | project_1/vhost/virtio.c:131-173 | no more than num descriptors contribute |
| VirtqHandler.HaltsIff | project_1/vhost/virtio.c:131-145 | a walk ends if and only if it never enters an indirect table whose first entries lead back to it |
| VirtqHandler.CycleNeverEnds | project_1/vhost/virtio.c:137-145 | a walk that enters such a cycle never ends |
| VirtqHandler.EndlessEntersCycle | project_1/vhost/virtio.c:131-173 | there is no other way for a walk not to end, by counting the tables |
| VirtqHandler.EndlessWalk | project_1/vhost/virtio.c:137-145 | a one-entry ring whose descriptor is indirect to a table that holds the same descriptor: the walk never ends |
| RecordBytes.RecordOfChain | project_1/vhost/virtio.c:126-173 | on a proper chain the record is the first 4096 of the host bytes, in chain order, of the descriptors whose WRITE bit is clear and whose whole range translates |
| RecordBytes.RecordOfIndirect | project_1/vhost/virtio.c:137-145 | the same across an indirect table the driver stored; nothing named after the indirect descriptor counts |
| RecordBytes.RecordOfBroken | project_1/vhost/virtio.c:131-145 | a chain that breaks off at an index out of range, an unmapped table or the link limit leaves what was gathered before |
| RecordBytes.OneBufferOneRecord | project_1/vhost/virtio.c:121-180 | a log line in one mapped readable buffer adds exactly one record with its level and message |
| RecordBytes.WritableChainSilent | project_1/vhost/virtio.c:146-177 | a chain of device-writable buffers adds none |
| WalkEnds.WalkEndsIff | project_1/vhost/virtio.c:131-173 | a walk ends if and only if, at each indirect descriptor along the chain, following entry 0 from table to table stops |
| WalkEnds.HopsForever | project_1/vhost/virtio.c:137-145 | such hops stop within the number of tables or never |
| VirtqRuns.Virtq.ServeChain | project_1/vhost/virtio.c:121-180 | one turn: the record is emitted, the head completed, both indices advanced |
| VirtqRuns.Virtq.Handle | project_1/vhost/virtio.c:109-183 | returns the 16-bit distance to the index read, serves exactly those chains oldest first, advances both indices by it |
| VirtqRuns.Virtq.TxKick | project_1/vhost/backend.c:83-145 | for any driver memory found at each read of avail->idx: the indices are what KickSteps computes from the reads, each handler call serves what it found, the interrupt is raised exactly if a chain was served |
| VirtqRuns.ServeSum | project_1/vhost/virtio.c:109-183 | two calls serve what one call over both stretches serves |
| VirtqRuns.HasServedBoth | project_1/vhost/backend.c:120-141 | successive calls add up across 16-bit wraparound |
| ChainFifo.FifoOfChains | project_1/vhost/virtio.c:109-183 | in every run, for any split of publications into calls: chains are served in publication order with the records they were published with, the log has one line for each record that is not blank, parsed and numbered on, used slots in that order, every call returned the distance it advanced |
| ChainFifo.EmitAllLogs | project_1/vhost/sink.c:38-56 | a sink given any records has one line for each that is not all newlines and carriage returns, line i numbered i past its start modulo 2^32 |
| ChainFifo.ServeInv | project_1/vhost/virtio.c:121-180 | the chain served next is the oldest unserved publication |
| ChainFifo.SplitsAgree | project_1/vhost/virtio.c:109-183 | two runs with the same publications leave the sink and the indices the same, whatever their calls |
| ChainFifo.OneCall | project_1/vhost/virtio.c:109-183 | a single call over all outstanding chains ends there too |
| DescriptorMap.VirtqueueMapDesc | project_1/vhost/libvhost-user.c:2644-2680 | a buffer is mapped exactly when it is not empty, wholly mapped and its pieces fit, and those pieces are appended |
| DescriptorMap.ResolveEntry | project_1/vhost/libvhost-user.c:2717-2743 | the table and index a chain starts from, or a panic |
| DescriptorMap.ResolveExact | project_1/vhost/libvhost-user.c:2717-2743 | a plain head starts in the ring's table; an indirect one fails exactly when its length is zero or no multiple of 16 or its address lies in no region |
| DescriptorMap.ResolveStored | project_1/vhost/libvhost-user.c:2717-2743 | an indirect table the driver stored in one region is read back entry by entry |
| DescriptorMap.MapNext | project_1/vhost/libvhost-user.c:2747-2772 | one descriptor extends the readable or the writable list, or the order or size check fails |
| DescriptorMap.VuQueueMapDesc | project_1/vhost/libvhost-user.c:2704-2795 | terminates on every table, each hop adding a piece, and breaks the device exactly when it returns nothing |
| DescriptorMeaning.MapDescIff | project_1/vhost/libvhost-user.c:2704-2795 | succeeds exactly on a proper, ordered, mapped chain within the limits, with the pieces of its readable then its writable buffers |
| DescriptorMeaning.PiecesMeaning | project_1/vhost/libvhost-user.c:2644-2680 | a guest range is cut exactly when all of it is mapped, the pieces are the range byte for byte, each in one region |
| DescriptorMeaning.MapDescBytes | project_1/vhost/libvhost-user.c:2704-2795 | out_sg then in_sg are, byte for byte, the chain's readable then writable guest ranges |
| DescriptorMeaning.WrappedPiece | project_1/vhost/libvhost-user.c:198-222 | a range that wraps past 2^64 unnoticed is accepted whole although its region ends before it |
| DescriptorMeaning.EndsOrBreaks | project_1/vhost/libvhost-user.c:2330-2363 | every chain of a table ends properly or breaks off, out of range or longer than its table |
| AvailBytes.ScanTableLoop | project_1/vhost/libvhost-user.c:2431-2451 | the do-while loop over one chain, early exit, loop guard and 32-bit sums included |
| AvailBytes.GetAvailBytes | project_1/vhost/libvhost-user.c:2365-2474 | the sums reported, zero on a broken device or a corrupt ring, which it breaks |
| AvailBytes.QueueAvailBytes | project_1/vhost/libvhost-user.c:2476-2486 | the comparison of the reported sums |
| AvailBytes.ScanRingHonest | project_1/vhost/libvhost-user.c:2385-2461 | the scan stops early exactly when the 32-bit sums are enough on the way, and otherwise counts every descriptor |
| AvailBytes.ScanTableBreaks | project_1/vhost/libvhost-user.c:2431-2451 | a chain that breaks off corrupts the scan exactly when the sums were not enough before |
| AvailBytes.AvailableIff | project_1/vhost/libvhost-user.c:2365-2486 | for chains of any size the answer is yes if and only if, descriptor by descriptor, both 32-bit sums are enough at some point |
| AvailBytes.RefusesUnusable | project_1/vhost/libvhost-user.c:2370-2400 | on a broken device, with too many heads or a head out of range, only the empty request is granted |
| AvailBytes.SumWraps | project_1/vhost/libvhost-user.c:2431-2451 | two writable buffers of 2^31 bytes bring the sum back to 0 and a request they hold is refused |
| AvailBytes.PopLens | project_1/vhost/libvhost-user.c:2704-2795 | the byte sums of a mapped element are those of its chain |
| AvailBytes.AvailableExact | project_1/vhost/libvhost-user.c:2365-2486 | for pending chains with their mapped elements, a yes means those elements hold that many bytes; below 2^32 each way a no means they do not |
| AvailPops.PopsMapHeads | project_1/vhost/libvhost-user.c:2852-2909 | successive pops of a sound queue take and map the pending heads in ring order, with and without event indices |
| AvailPops.AvailableAsPops | project_1/vhost/libvhost-user.c:2365-2486 | a yes means the elements that popping all pending chains returns hold that many bytes; below 2^32 each way it is yes if and only if they do |
| AvailPops.RunsAreSound | project_1/vhost/libvhost-user.c:2852-2936 | every run without in-flight tracking leaves the queue sound |
| DirtyLog.OrMarks | project_1/vhost/libvhost-user.c:470-475 | the atomic or sets one page's bit and no other |
| DirtyLog.MarkedMeans | project_1/vhost/libvhost-user.c:470-475 | page p is bit p % 8, from the lowest, of byte p / 8 |
| DirtyLog.VuLog.LogWrite | project_1/vhost/libvhost-user.c:477-496 | exactly the visited pages are added; every access is in bounds under the assertion |
| DirtyLog.LoopGuard | project_1/vhost/libvhost-user.c:487-493 | under the assertion the 64-bit guard does not wrap and every page visited has its bit inside the table |
| DirtyLog.VisitsExactIff | project_1/vhost/libvhost-user.c:487-493 | the pages visited are those the range touches if and only if the range does not reach 2^64 |
| DirtyLog.LoggedRightIff | project_1/vhost/libvhost-user.c:487-493 | of the ranges that pass the assertion, exactly those that go past 2^64 are logged wrongly |
| DirtyLog.WrongPages | project_1/vhost/libvhost-user.c:487-493 | a range that passes the assertion and marks nothing although it touches pages |
| DirtyLog.VuLog.LogTable | project_1/vhost/libvhost-user.c:2990-3007 | the walk logs exactly its ranges and reports its panic |
| DirtyLog.WalkPages | project_1/vhost/libvhost-user.c:2990-3007 | on a proper chain the walk never panics and its pages are those of the first len device-writable bytes |
| DirtyLog.WalkPanicsIff | project_1/vhost/libvhost-user.c:2990-3007 | on a chain that breaks off the walk panics exactly when the written bytes were not all found before |
| DirtyLog.PushPagesExact | project_1/vhost/libvhost-user.c:2938-3040 | the ranges of a push cover exactly the pages of the bytes it writes |
| LogStore.Store.Append | project_1/emulator/logstore.c:48-58 | the file text grows by the record's line and the record list by the record |
| LogStore.TextDetermines | project_1/emulator/logstore.c:13-58 | for messages without a newline followed by a header, two record lists leave the same file if and only if they agree in numbers, messages and levels, all levels above 3 alike |
| LogStore.ForgesIff | project_1/emulator/logstore.c:48-58 | a record's text is also that of two records if and only if its message has a newline followed by a header |
| LogStore.NewlineForges | project_1/emulator/logstore.c:48-58 | a message that does, and one with a newline that does not |
| LogStore.TextSamples | project_1/emulator/logstore.c:13-58 | the exact text of a record for every level: number in brackets, level name, message, newline |
| LogStore.DecimalValue | project_1/emulator/logstore.c:53 | printed decimals read back |
| WireFormat.LogRecLine | project_1/runner/runner.c:211-226 | the buffer holds the printed prefix and message cut to leave room, then a newline |
| WireFormat.LineShape | project_1/runner/runner.c:211-226 | for any int level the line is the signed number, a space, the part of the message that leaves 4095 bytes in all, and one newline |
| WireFormat.StripLength | project_1/vhost/sink.c:41-44 | the loop cuts exactly the trailing newlines and carriage returns |
| WireFormat.Sink.Emit | project_1/vhost/sink.c:38-56 | one record with parsed level and message, or none if nothing is left, and the next sequence number |
| WireFormat.SilentIff | project_1/vhost/sink.c:38-46 | nothing is recorded exactly for bytes that are all newlines and carriage returns |
| WireFormat.PlainLineReads | project_1/vhost/sink.c:46-56 | a line without a level prefix is recorded whole at level INFO |
| WireFormat.StrtoulReads | project_1/emulator/netlog.c:54-64 | the level is read over blanks, an optional sign and digits, saturating, zero if there are none |
| WireFormat.ListenerReadsBack | project_1/emulator/netlog.c:48-64 | the listener's parser reads back any int level, as an unsigned number, and any message |
| WireFormat.SinkReads | project_1/vhost/sink.c:38-56 | the sink reads the level and the message without trailing carriage returns |
| WireFormat.TransportsAgreeIff | project_1/runner/runner.c:211-226 | both transports read back what was logged if and only if the message does not end in a carriage return |
| WireFormat.ReturnIsLost | project_1/vhost/sink.c:41-44 | a message that is one carriage return reaches the log empty |
| LineSplitter.Conn.constructor | project_1/emulator/netlog.c:39-46 | a connection starts with an empty line |
| LineSplitter.Netlog.ProcessLine | project_1/emulator/netlog.c:48-64 | one record per line, numbered on |
| LineSplitter.Netlog.Feed | project_1/emulator/netlog.c:66-87 | a chunk continues the connection's line and records the lines it completes |
| LineSplitter.FeedIsSplit | project_1/emulator/netlog.c:66-87 | feeding byte by byte is splitting the stream at newlines and cutting long lines |
| LineSplitter.CutExact | project_1/emulator/netlog.c:78-85 | a line is cut into pieces of 4199 bytes, the last what remains |
| LineSplitter.NothingLost | project_1/emulator/netlog.c:66-87 | the pieces and the unfinished line are the stream without its newlines, each piece within the limit |
| LineSplitter.PerConnection | project_1/emulator/netlog.c:66-87 | for any interleaving of chunks a connection's lines are the split of its own stream |
| LineSplitter.NumbersRun | project_1/emulator/netlog.c:48-87 | the stored records are the lines in order, parsed, the i-th numbered i modulo 2^32 over all connections |
| LineSplitter.OneRecordEach | project_1/emulator/netlog.c:48-87 | a line logrec built from any level and any message becomes exactly one record with that level and what fits of the message |
| RetryBuffer.LogSink.LogPend | project_1/runner/runner.c:148-154 | a line is buffered whole or not at all |
| RetryBuffer.LogSink.LogSinkDrop | project_1/runner/runner.c:162-168 | the connection is gone, the skip set, the backoff doubled up to its limit |
| RetryBuffer.LogSink.LogSinkEmit | project_1/runner/runner.c:170-209 | the sink afterwards and the bytes delivered, for every outcome of connect and write |
| RetryBuffer.EmitExact | project_1/runner/runner.c:145-209 | from the answers of connect and write alone: a line is lost exactly if it was not written whole and would bring the pending bytes past 2048; the bytes sent and kept; whether a connection is tried and left |
| RetryBuffer.FaithfulIff | project_1/runner/runner.c:170-209 | an emit keeps the stream whole lines in order if and only if it does not take part of a fresh line |
| RetryBuffer.PartialWriteRepeats | project_1/runner/runner.c:205-208 | a byte that is delivered and then pending again |
| RetryBuffer.RetryKeepsOrder | project_1/runner/runner.c:145-209 | in every run, delivered then pending bytes are exactly the lines that were not lost, whole and in order; after n failures the gap to the next attempt is exactly 2^(n-1) emits, at most 64 |
| LogDevice.GpaToHost | project_1/emulator/vmm.c:311-329 | an address is translated exactly when the whole range lies in RAM, in unbounded integers |
| LogDevice.Device.MmioRead | project_1/emulator/device.c:70-101 | every register's value |
| LogDevice.Device.StatusBits | project_1/emulator/device.c:70-101 | the low byte of STATUS is READY, with ERROR in bit 2; the rest is the code |
| LogDevice.Device.CommandLog | project_1/emulator/device.c:163-198 | the 64-bit range checks accept exactly the ranges of LogError; one record or an error, nothing else |
| LogDevice.Device.CommandStat | project_1/emulator/device.c:204-236 | the stats block and nothing else, or an error; it crashes exactly when the buffer overruns RAM |
| LogDevice.Device.MmioWrite | project_1/emulator/device.c:103-243 | the device after any register write |
| LogDevice.Device.VlogWrite | project_1/guest/vlog.c:45-60 | the composed register writes return the documented error and append one record exactly on success |
| LogDevice.Device.VlogStat | project_1/guest/vlog.c:70-82 | the composed register writes return the documented error and store the counters exactly on success |
| LogDevice.LoggedBytes | project_1/emulator/device.c:163-198 | a successful LOG appends one record with the guest's level, the next number and, byte for byte, the guest's memory at the address |
| LogDevice.StoredIsLogged | project_1/guest/vlog.c:45-60 | a byte the guest stored at position k of its message, and left alone, is byte k of the record, whatever calls came before and between |
| LogDevice.CountersMatch | project_1/guest/vlog.c:45-82 | over any sequence of calls the device lives exactly until a STAT overruns RAM, and SEQ and the byte total are the count and summed lengths of successes modulo 2^32 |
| LogDevice.StatTouchesOnly | project_1/emulator/device.c:204-236 | a STAT whose whole buffer is in RAM stores the two numbers and changes no other RAM byte |
| LogDevice.StatOutcome | project_1/emulator/device.c:204-236 | the exact addresses and lengths at which a STAT succeeds, fails with which code, or crashes the device |
| LogDevice.OverrunHappens | project_1/emulator/device.c:232-234 | a buffer of nine bytes at the last eight of RAM crashes the device |
| LogDevice.WordValue | project_1/emulator/device.c:233-234 | the four stored bytes are the number, least significant first |
| LogDevice.LogMeetsContractIff | project_1/emulator/device.c:163-198 | the device meets the documented outcome except for an empty message at a null address |
| Seccomp.BuildFilter | project_2/runtime/container.c:405-437 | the loop fills the array exactly, for a deny list of any length |
| Seccomp.JumpsStay | project_2/runtime/container.c:415-434 | every jump is forward and in range |
| Seccomp.FilterMeaning | project_2/runtime/container.c:414-437 | an interpreter run yields KILL on a foreign architecture, else ERRNO with EPERM on a listed call, else ALLOW |

## Left out

- Sockets, eventfd, mmap, userfaultfd, protocol dispatch and configuration space: kernel and library calls. Kicks and interrupts are flags, answers of system calls are parameters.
- Memory fences: steps are sequentially consistent.
- The copy path for an indirect table that spans regions (virtqueue_read_indirect_desc): VuQueueMapDesc, Pop, Push, Fill and GetAvailBytes require the table in use to lie in one region.
- Allocation failure in virtqueue_alloc_element and in the resubmission list, and null ring pointers.
- Truncation of the BPF program length to 16 bits, for deny lists of more than 32765 calls.
- CrashRuns.ExactlyOnce: a head is reused only after the driver read its completion, at most num chains are outstanding, elements complete one at a time through vu_queue_push on a device that is not broken, and the first start finds zeroed rings.
- CrashRuns.ResubmitInOrder: needs the surviving counters within a window of 2048 at each recovery, the window of the comparison, and a 64-bit counter that does not wrap.
- SplitQueue.QsortOk: qsort itself is not modelled; recovery may return any permutation when the comparison is inconsistent.
- QueueRuns.CompletionsHold: the application fills only elements in use, flushes only what it filled, and does not give back elements it has filled.
- QueueRuns.Bookkeeping: without in-flight tracking, with chains that map and flushes of at most inuse.
- VirtQueue.VuVirtq.CheckInflights: the list must fit its allocation, as a larger one overruns memory in the source; the kick written after recovery is left out.
- VirtqRuns.Virtq.Handle: the chains it reaches are ones whose walk ends; WalkEndsIff says which. Guest memory does not change during one call; ChainFifo lets it change between chains.
- VirtqRuns.Virtq.TxKick: driver memory does not change during one call of the handler; ChainFifo lets it change between chains, Wakeup interleaves every store of the indices.
- CrashSteps.PushIsSteps: a push on a broken device, or one whose log walk panics, is not part of the crash protocol; PushKeepsChainIff covers both.
- Interrupts.InterruptExact: flush counts are below 2^16, which every ring keeps to.
- DescriptorMeaning.MapDescBytes: regions are disjoint and end below 2^64, buffers end below 2^64.
- AvailPops.AvailableAsPops: chains that pops accept and no more descriptors than the ring has, an indirect chain counting as one; nothing to resubmit, no in-flight tracking.
- DirtyLog.VuLog.LogWrite: the log table is smaller than 2^49 bytes; the assertion is a premise, as in the source it ends the process.
- The notification of the log's reader (vu_log_kick), vu_queue_set_notification, and the message sent when there is no call descriptor.
- Multi-record helpers of the listener (accept and poll): the model starts from the chunks they deliver.
- printf beyond decimal printing, other bases of strtoul, locale and stdout copies of log lines.
- Raw register sequences that bypass vlog_write and vlog_stat, beyond MmioWrite's contract; null message pointers in the guest library.
- Unicorn setup, binary loading, serial console, guest assembly, the container's mounts, namespaces and cgroups, and the remaining projects: process control and small tables.
