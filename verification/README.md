# Bifrost verification model

Bifrost runs DTrace programs in guests and merges what they report on a host. This project models the parts of
it in which a bug would not show in a finite test, in Dafny 4.11, and proves what those parts promise. Each
imperative part of the system is modelled twice: as methods that update fields, arrays and cursors the way the
original does, and as functions on values that the methods are proved to compute; the theorems are about the
functions, so they hold of the methods.

* **Control rings** (`RingSpec`, `RingQueue`, `RingLayout`, `ControlRing`, `ControlShm`, `RingProgress`,
  `RingConcurrent`, `RingSharedProducers`, `RingOverlap`): a byte ring with monotone positions, aligned entries and
  pad records. It refines a queue over all runs, its exact capacity bound is proved, and it is modelled a second time as
  threads whose loads and stores interleave one byte at a time with stale positions. With one producer and one
  consumer every interleaving is first-in first-out. The code does not enforce one producer. On the command ring it
  is a documented contract (`host/bifrost/src/control_shmem.rs:13`, `:59`) that every attached process can break by
  calling `push_cmd` (`host/bifrost/src/cli/runtime.rs:208`, `host/bifrost/src/bin/conduit_shm_diag.rs:116`). On the
  response ring the worker thread (`host/virtio-conduit/src/shmem/consumer.rs:84`) and the event-queue thread
  (`host/virtio-conduit/src/lib.rs:230-232`) both push and share no lock. `RingSharedProducers` and `RingOverlap`
  are for any number of producers on either ring: a push may begin exactly when no other push that can still be
  accepted is going on.
* **Data ring** (`DataRing`, `DataRingEdge`): the read-only walk over a wrapping per-CPU ring, and exactly when it
  reads outside the mapping.
* **Merging** (`RecordOrder`, `MergeSpec`, `MergeTargets`, `MergeRuns`, `MergeDiscipline`, `MergedRing`): the
  bounded-lookback k-way merge against stable sorting, for single drains and for whole runs.
* **Aggregation** (`AggSpec`, `AggFold`, `AggRows`, `AggOrder`, `AggResnapshot`, `AggReducer`): cross-target rows,
  what each holds after any snapshots, exactly when arrival order matters, and exactly when a row agrees with the
  contributions it lists.
* **Codecs** (`Wire`, `WireParts`, `SchemaSpec`, `SchemaCodec`, `FieldReloc`, `Bfr7Spec`, `Bfr7Codec`,
  `Bfr7Writer`, `Bfr7Reader`, `Bfr7Format`): the record schema and the BFR7 wrapper, with round trips, truncation and
  re-encoding.
* **DOF sessions** (`Dof`, `DofFormat`, `Ecb`, `SessionSpec`, `SessionSafety`, `SessionVerdicts`,
  `SessionActions`, `SessionRuns`, `SessionWitness`, `SessionDriver`): section tables, the ECB stream and the
  attach/bind/record/detach driver against an arbitrary adapter, which is a record of functions from the call
  history to answers.
* **eBPF** (`Branch`, `BranchSections`, `StaticCheck`, `StaticInsns`, `BranchTargets`): branch back-patching in one
  section and in a chain of sections, the structural checker, and where jumps land.
* **Conduit** (`Conduit`): the pending-payload queue shared by two threads.

`Bytes` and `Modular` hold little-endian integers and the facts about `%` that the rings rest on.

Machine integers are unbounded here; where the width matters the wrap-around, truncation or cast is written out
(`WrapI64`, `ToLe`, `Signed16`, `TWO64`). Where the original panics, the model returns nothing, an error or an
explicit panic outcome.

Some things the code or its comments promise do not hold on all inputs. The model follows the code; each case has
its exact condition and a concrete input:

* A push of the pad kind is accepted and then lost (`RingQueue.PushDeliversIff`, `RingQueue.PadKindVanishes`).
* A push that begins while another can still be accepted can destroy the other one's entry
  (`RingOverlap.MayBeginIff`, `RingOverlap.OverlapBreaks`, and on an empty ring `RingOverlap.OverlapLoses`).
* The comment at `host/bifrost/src/control_shmem.rs:937-940` says the flag word cannot straddle the ring's end; it
  does at positions that are no multiple of eight, and a ring longer than its mapping is not refused
  (`DataRingEdge.NeverLeavesIff`, `DataRingEdge.UncoveredOutsideIff`, `DataRingEdge.UnalignedOutside`,
  `DataRingEdge.ShortMappingOutside`).
* Positions that wrap at 64 bits put two pending bytes at one offset unless the ring length divides 2^64
  (`RingProgress.WrapKeepsApartIff`, `RingProgress.ThreePagesCollide`).
* `host/bifrost/src/merge.rs:22-27` promises that records of one source are never reordered; the final drain does
  reorder them (`MergeTargets.DrainAllKeepsTargetsIff`, `MergeTargets.DrainAllReorders`).
* The comment at `host/bifrost/src/merge.rs:133` promises `gns + lookback <= now`; the saturating subtraction
  differs for a zero timestamp (`MergeRuns.CutoffMeaning`, `MergeRuns.ZeroPassesEarly`).
* A target's later snapshot overwrites its contribution although the row has already added the earlier one
  (`AggResnapshot.SumRowAgreesIff` and its two companions, `AggFold.ResnapshotDoubleCountsIff`).
* The BFR7 encoder accepts programs that do not come back (`Bfr7Codec.SurvivesIff`,
  `Bfr7Codec.MismatchedTrailerLost`).
* `crates/bifrost-dtrace-lower/src/session.rs:13-15` says action-walk errors become rejections; they abort the
  session and leave the probe attached (`SessionVerdicts.AbortsExactly`, `SessionWitness.SessionAborts`).
* An aggregation sentinel always rejects its ECB, because its operator code is never a known one
  (`Ecb.SentinelNamesNoOperator`).
* The field-relocation record check covers seven of the eight header bytes it reads (`FieldReloc.DrainMeaning`,
  `FieldReloc.SevenBytesPanic`).
* A branch distance is cut to 16 bits without a check (`Branch.BranchLandsIff`, `Branch.FarBranchMisses`).
* Sections lowered one after another without clearing the labels resolve their branches in the first section
  (`BranchSections.ChainGoesHomeIff`, `BranchSections.SecondSectionLoops`).
* The checker lets a jump into the middle of a wide load and past the last instruction, and does not look at the
  targets of the 32-bit jump class (`BranchTargets.JumpLandsIff`, `BranchTargets.PassesIntoWide`,
  `BranchTargets.PassesOffTheEnd`, `BranchTargets.NarrowJumpPasses`).
* A patched branch to a label at the end of the body goes where no instruction is
  (`BranchTargets.PatchedBranchLandsIff`, `BranchTargets.EndLabelMisses`).
* A refused payload returns to the queue without its sequence tag (`Conduit.TagsConservedIff`,
  `Conduit.RefusedOnce`).

## Model

| member | source | states |
|---|---|---|
| RingLayout.ComputeRingLayout | host/virtio-conduit/src/control.rs:131-158 | a region is accepted exactly from 73728 bytes on; the command ring is then the 65536 bytes after the first page, the response ring all whole pages behind it |
| Bytes.FirstByteIsLow | host/virtio-conduit/src/control.rs:250-253 | two-, four- and eight-byte numbers are read with their least significant byte first |
| RingSpec.HeaderRoundTrip | host/virtio-conduit/src/control.rs:250-253 | an entry header written with a given kind, length and tag is read back as the same three values |
| RingSpec.EntryLayout | host/virtio-conduit/src/control.rs:310-320 | an entry is its kind, its payload length modulo 2^32 and its tag at bytes 0, 4 and 8, and the payload from byte 16 on |
| RingSpec.PadLayout | host/virtio-conduit/src/control.rs:297-302 | a pad is kind 255 with the length that is skipped after it |
| RingSpec.PlacedIffRoom | host/bifrost/src/control_shmem.rs:1106-1151 | a push is accepted if and only if its entry fits in one piece behind the producer position, or at the start of the next lap, without reaching the consumer position one lap on; a refusal carries the free bytes, the need and the pad |
| RingSpec.RecordFrame | host/virtio-conduit/src/control.rs:249-276 | what the consumer makes of a record depends only on the bytes the record spans |
| RingSpec.DecodeFrame | host/virtio-conduit/src/control.rs:242-277 | the queue that the bytes stand for depends only on the bytes between the two positions |
| RingSpec.DecodeConcat | host/virtio-conduit/src/control.rs:242-277 | the queue of two adjacent stretches of the ring is the concatenation of their queues |
| RingSpec.PublishAppends | host/virtio-conduit/src/control.rs:310-322 | moving the producer position over a laid record, with or without a pad before it, appends exactly that entry |
| RingQueue.HeadRoom | host/bifrost/src/control_shmem.rs:1126-1143 | an aligned producer position always has at least a header's room before the ring's end, so the pad length never underflows |
| RingQueue.PlacedInside | host/bifrost/src/control_shmem.rs:1121-1170 | no accepted entry crosses the ring's end, and a needed pad has room for its own header |
| RingQueue.WrittenKeeps | host/bifrost/src/control_shmem.rs:1134-1168 | the stores of an accepted push change no byte between the consumer and the producer position |
| RingQueue.PushAppends | host/bifrost/src/control_shmem.rs:1102-1173 | an accepted push of a sendable entry keeps the ring valid and appends exactly that entry to the queue |
| RingQueue.PushDeliversIff | host/bifrost/src/control_shmem.rs:1102-1173 | an accepted push delivers its entry if and only if the kind is not the pad kind and the length fits 32 bits |
| RingQueue.PadKindVanishes | host/bifrost/src/control_shmem.rs:1102-1173 | an entry of the pad kind that fills a fresh ring is accepted and never comes out |
| RingQueue.ConsumeOne | host/virtio-conduit/src/control.rs:249-276 | on a valid ring the overrun check never fires and consuming one record is one step of the queue, pads being invisible |
| RingQueue.PollMeaning | host/bifrost/src/control_shmem.rs:1187-1240 | polling for a tag removes exactly the entries before the first one with that tag, and that one, as far as the round bound allows |
| RingQueue.ApplyKeepsFifo | host/bifrost/src/control_shmem.rs:1102-1283 | push, drain and poll each keep the first-in-first-out relation between what was accepted, what came out and what is queued; a refused push changes nothing |
| RingQueue.RunIsFifo | host/bifrost/src/control_shmem.rs:1102-1283 | over any run, what came out followed by what is still queued is what was accepted, in order |
| ControlRing.Ring.constructor | host/virtio-conduit/src/control.rs:441-470 | a fresh ring over a region is valid and empty |
| ControlRing.Ring.Publish | host/virtio-conduit/src/control.rs:291-322 | the stores and the position update of an accepted push give exactly the pushed ring state and touch no other byte of the region |
| ControlRing.Ring.Push | host/virtio-conduit/src/control.rs:279-325 | on every valid ring the push succeeds if and only if the entry fits, in terms of the two positions and the ring length; the ring then is the pushed state, otherwise it is unchanged and the refusal says what was free and what was needed |
| ControlRing.Ring.ReadRecord | host/virtio-conduit/src/control.rs:249-271 | the record at a ring offset, read in place, is the pad, overrun or entry the bytes stand for |
| ControlRing.Ring.Drain | host/virtio-conduit/src/control.rs:242-277 | everything queued comes out in order and the ring is left valid and empty |
| ControlRing.Ring.PollRsp | host/bifrost/src/control_shmem.rs:1187-1240 | what the polling loop removes is a prefix of the queue: entries with other tags, then the wanted one, if it was found within the round bound; its overrun error never occurs |
| ControlShm.Shm.Create | host/virtio-conduit/src/control.rs:441-500 | creation is refused exactly below 73728 bytes; otherwise both rings are empty and lie where the layout says |
| ControlShm.Shm.PushCmd | host/bifrost/src/control_shmem.rs:1102-1173 | a sequence number is drawn even for a refused push; the push succeeds if and only if the entry fits the command ring, and a refusal says why; the response ring is untouched |
| ControlShm.TagsRepeatIff | host/bifrost/src/control_shmem.rs:1103-1104 | two commands carry the same sequence number if and only if a multiple of 2^64 commands lies between them |
| ControlShm.TagsDistinct | host/bifrost/src/control_shmem.rs:1103-1104 | fewer than 2^64 successive commands carry pairwise different sequence numbers |
| ControlShm.Shm.PushRsp | host/virtio-conduit/src/control.rs:279-325 | a response push succeeds if and only if the entry fits the response ring, and a refusal says why; the command ring is untouched |
| RingProgress.HalfRingBound | host/bifrost/src/control_shmem.rs:1106-1151 | a drained ring accepts an entry at every head offset if and only if the entry takes at most half the ring |
| RingProgress.ReachHead | host/bifrost/src/control_shmem.rs:1102-1173 | every aligned head offset of an empty ring is reached by some run of pushes and drains |
| RingProgress.RetryIsFutile | host/bifrost/src/control_shmem.rs:1121-1151 | retrying a refused push any number of times changes nothing |
| RingProgress.LargeEntryStarves | host/virtio-conduit/src/control.rs:279-308 | for every entry of more than half the ring there is a run that leaves the ring empty and the entry refused for any number of retries |
| RingProgress.WrapKeepsHeadsIff | host/bifrost/src/control_shmem.rs:1121-1126 | wrapping 64-bit positions keeps every head offset if and only if the ring length divides 2^64 |
| RingProgress.WrapKeepsApartIff | host/bifrost/src/control_shmem.rs:1121-1126 | across the wrap of the 64-bit positions, no two positions less than a ring's length apart share an offset if and only if the ring length divides 2^64 |
| RingProgress.ThreePagesCollide | host/bifrost/src/control_shmem.rs:1121-1126 | on a ring of three pages the first position after the wrap and the one a page before it share an offset |
| RingConcurrent.StoresApart | host/bifrost/src/control_shmem.rs:1134-1168 | no two stores of one push go to the same offset |
| RingConcurrent.StoreAhead | host/bifrost/src/control_shmem.rs:1118-1168 | every store lands past the producer position and within one lap of the consumer position the producer saw, however stale |
| RingConcurrent.StepIsSafe | host/bifrost/src/control_shmem.rs:1116-1173 | every atomic step of either thread keeps the invariant and writes no byte between the consumer and the producer position |
| RingConcurrent.NeverBlocked | host/virtio-conduit/src/control.rs:242-277 | every access the producer or the consumer of the command ring is about to make in a reachable state is in bounds |
| RingConcurrent.StoresIffRoom | host/bifrost/src/control_shmem.rs:1106-1151 | in every state a push goes on to its stores if and only if the entry fits, judged by the producer position and the consumer position it loaded |
| RingConcurrent.EveryInterleavingIsFifo | host/bifrost/src/control_shmem.rs:1102-1173 | for a ring with one producer and one consumer, as the command ring is documented to be: in every interleaving of their byte-wise steps the entries taken are a prefix of those published, the rest is what the bytes read as, and no overrun is seen |
| RingSharedProducers.CarefulPushesAreFifo | host/virtio-conduit/src/control.rs:279-325 | with any number of producers: in every interleaving in which no push begins while another that can still be accepted is between loading and publishing the producer position, what was taken followed by what the bytes read as is what was published, and no overrun is seen |
| RingSharedProducers.SettlesIffRoom | host/virtio-conduit/src/control.rs:279-308 | each of several producers stores if and only if its entry fits, judged by the two positions it loaded itself |
| RingSharedProducers.DrainedRoomIsMost | host/virtio-conduit/src/control.rs:285-308 | an entry that is refused with the consumer at the producer position is refused with the consumer anywhere |
| RingOverlap.OverlapBreaks | host/virtio-conduit/src/control.rs:285-322 | from every state in which a push that can still be accepted is going on, a second push that begins there can be followed by a run in which the first is published and the consumer finds the second one's entry in its place, so the queue is not what was published |
| RingOverlap.MayBeginIff | host/virtio-conduit/src/control.rs:279-325 | in every state that careful pushes lead to, another push may begin, that is, every careful continuation stays first-in first-out, if and only if no push that can still be accepted is going on |
| RingOverlap.Drain | host/virtio-conduit/src/control.rs:242-277 | from any such state the consumer alone takes everything that was published, and changes nothing a producer holds |
| RingOverlap.OverlapHarmlessIff | host/virtio-conduit/src/control.rs:285-322 | one schedule on an empty ring, in which both pushes load, the first stores all, the second stores all, then they publish in that order: the queue holds both in order if and only if they are equal and the bytes behind the first already held that entry |
| RingOverlap.OverlapLoses | host/virtio-conduit/src/control.rs:285-322 | in that one schedule two different entries are both accepted, and the second is found in place of the first |
| DataRing.ReadRingBytes | host/bifrost/src/control_shmem.rs:1004-1028 | the bytes returned are the ring bytes at the consecutive positions modulo the ring length; asking for more than the ring gives nothing |
| DataRing.HeadReads | host/bifrost/src/control_shmem.rs:981-986 | the payload head is two 32-bit and two 64-bit words in this order |
| DataRing.HeaderFits | host/bifrost/src/control_shmem.rs:937-943 | in a ring whose length is a multiple of eight the size and flag words reach past the ring's end by at most the position's residue modulo eight |
| DataRing.NeverOutside | host/bifrost/src/control_shmem.rs:937-943 | a mapped ring with as many mapped bytes after it as the position is off a multiple of eight, or seven if its length is no such multiple, is read without a flag word outside the mapping |
| DataRingEdge.NeverLeavesIff | host/bifrost/src/control_shmem.rs:914-1001 | for a mapped ring whose length is a multiple of eight: no contents lead the walk to a flag word outside the mapping if and only if as many bytes after the ring are mapped as the position is off a multiple of eight, or the ring has 16 bytes and the position is nine below 2^64 |
| DataRingEdge.SixteenNeverLeaves | host/bifrost/src/control_shmem.rs:914-1001 | that one exception: from nine below 2^64 no contents of a 16-byte ring lead outside, whatever is mapped after it |
| DataRingEdge.UncoveredOutsideIff | host/bifrost/src/control_shmem.rs:870-882 | on a ring that is not wholly mapped the walk finds no record, and reads outside if and only if the first flag word lies outside |
| DataRingEdge.UnalignedOutside | host/bifrost/src/control_shmem.rs:937-943 | a ring and its mapping of 16 bytes, read from position 12: the flag word is outside, whatever the bytes are |
| DataRingEdge.ShortMappingOutside | host/bifrost/src/control_shmem.rs:870-882 | a 16-byte ring in a mapping of 12 bytes, read from position 8: the flag word is outside |
| DataRing.RecordsBetween | host/bifrost/src/control_shmem.rs:897-1001 | the records returned start one ring before the end for a reader more than a ring behind, at its own position otherwise; each lies in the ring's bytes at its position, each position follows from the record before it, and the list stops at the limit, at the end, after a record it cannot go on from, or where no record is published; below the last lap of 2^64 all positions are within one ring of the end; on a ring that holds given records it is their published prefix |
| DataRing.WalkMeaning | host/bifrost/src/control_shmem.rs:914-1001 | the loop finds exactly the records that this step-by-step description allows, on any bytes |
| DataRing.PositionsAscend | host/bifrost/src/control_shmem.rs:988-998 | below the last lap of 2^64 positions ascend and stay below the end |
| DataRing.WalkReturnsPrefix | host/bifrost/src/control_shmem.rs:914-1001 | on a ring holding given records the walk returns exactly the published ones before the first busy record or the limit, with the payloads and flags their producer wrote |
| DataRing.PrefixMeaning | host/bifrost/src/control_shmem.rs:914-1001 | how many records that prefix has, if and only if, and that each stands at the running sum of the sizes before it |
| DataRing.WalkBounded | host/bifrost/src/control_shmem.rs:914-1001 | on arbitrary bytes, from any start to any end, the walk yields at most the limit, and at most one record per eight bytes it can get over, and one more, unless the end is within a ring's length of 2^64 |
| DataRing.WalkRunsOver | host/bifrost/src/control_shmem.rs:994-998 | a ring and an end near 2^64 for which only the limit ends the walk |
| RecordOrder.StableSortUnique | host/bifrost/src/merge.rs:187-192 | two sorted lists with the same records in the same order among equal keys are equal |
| RecordOrder.StableSortIsStable | host/bifrost/src/merge.rs:187-192 | the sort returns a sorted list that keeps the order among equal keys |
| RecordOrder.OrderMeaning | host/bifrost/src/merge.rs:158-159 | the comparison puts the earlier time first, at equal times the target that comes first in byte order, and for one target the smaller sequence number |
| MergeSpec.BestIsLeast | host/bifrost/src/merge.rs:150-169 | with sorted sources the chosen head is least among all queued records |
| MergeSpec.BestIsFirst | host/bifrost/src/merge.rs:150-169 | no record of an earlier source ties with the chosen head |
| MergeSpec.DrainConserves | host/bifrost/src/merge.rs:143-179 | emitted and remaining records together are exactly the queued ones, whatever order the sources are in |
| MergeSpec.DrainSorts | host/bifrost/src/merge.rs:143-179 | from sorted sources the records at or below the cutoff come out sorted, and nothing else does |
| MergeSpec.DrainByKey | host/bifrost/src/merge.rs:143-179 | among records of equal key the drain emits them in queue order |
| MergeSpec.DrainMatchesDrainAll | host/bifrost/src/merge.rs:143-194 | with a cutoff above every queued record the k-way merge returns the same list as the final sort, ties included |
| MergeSpec.DrainThenDrainAll | host/bifrost/src/merge.rs:143-194 | an eligible drain at any cutoff followed by the final drain is the final drain |
| MergeSpec.SortedOutputIff | host/bifrost/src/merge.rs:143-179 | when everything is drained the output is sorted if and only if each source was pushed in order |
| MergeSpec.TargetOrderKept | host/bifrost/src/merge.rs:112-179 | eligible drains hand out the records of one target in the order they were pushed, sorted or not |
| MergeTargets.DrainAllKeepsTargetsIff | host/bifrost/src/merge.rs:182-194 | for sources with distinct ids, the final drain hands out every target's records in the order they were pushed if and only if each source was pushed in key order |
| MergeTargets.DrainAllReorders | host/bifrost/src/merge.rs:182-194 | one source that pushes time 2 and then time 1 gets them back turned around |
| MergeRuns.CutoffMeaning | host/bifrost/src/merge.rs:144-174 | the saturating cutoff test is the documented sum comparison, except for a zero timestamp before the first window ends |
| MergeRuns.ZeroPassesEarly | host/bifrost/src/merge.rs:144-174 | before the first window ends, a drain emits a queued record stamped zero although its window is still open |
| MergeRuns.AboveCutoffsIsTimely | host/bifrost/src/merge.rs:136-144 | a record above every cutoff used so far is never late |
| MergeRuns.LatePushBreaksOrderIff | host/bifrost/src/merge.rs:112-194 | a push in order within its source keeps the run's final output sorted if and only if it is not late |
| MergeRuns.RunIsSortedPermutation | host/bifrost/src/merge.rs:112-194 | over any timely run all eligible drains followed by the final drain form one sorted list that is a permutation of everything pushed |
| MergeDiscipline.DisciplinedRunIsSorted | host/bifrost/src/merge.rs:112-194 | a caller that pushes each source in order and every record above all earlier cutoffs gets, from its eligible drains and the final drain, one sorted list that is a permutation of everything it pushed |
| MergedRing.Merger.constructor | host/bifrost/src/merge.rs:79-94 | a merger starts with one empty queue per target |
| MergedRing.Merger.Push | host/bifrost/src/merge.rs:112-120 | a record is appended to its source, stamped with that source's target id, and no other queue changes |
| MergedRing.Merger.PushById | host/bifrost/src/merge.rs:125-131 | the record goes to the first source with the id; an unknown id is reported and changes nothing |
| MergedRing.Merger.FindBest | host/bifrost/src/merge.rs:148-170 | one scan finds the source with the least head, earlier sources winning ties |
| MergedRing.Merger.DrainEligible | host/bifrost/src/merge.rs:143-179 | the loop emits and keeps exactly what the merge function says; from sources pushed in key order the output is in key order, everything emitted is old enough, or stamped zero before the first window ends, and everything kept is not |
| MergedRing.Merger.Flush | host/bifrost/src/merge.rs:182-194 | every queue is emptied and the result is the stable sort of their contents: the same records, in order of time, then target, then sequence number |
| MergedRing.Merger.Pending | host/bifrost/src/merge.rs:198-200 | the number of queued records |
| AggSpec.AscendingUnique | host/bifrost/src/merge.rs:343-356 | an ascending bucket list is determined by what it maps |
| AggSpec.AddAllMeaning | host/bifrost/src/merge.rs:343-356 | adding a histogram adds bucket by bucket, modulo 2^64, and lists exactly the buckets of both |
| AggFold.SumRow | host/bifrost/src/merge.rs:322-328 | a row of counts or sums holds the wrapped sum of its snapshots |
| AggFold.BoundRow | host/bifrost/src/merge.rs:329-342 | a minimum or maximum row is the least or greatest of its snapshots and is one of them |
| AggFold.HistogramRow | host/bifrost/src/merge.rs:295-356 | a row that got histograms of one kind, with scalars of any kinds in between, is that kind and holds the bucketwise sum of the histograms alone |
| AggRows.RowMeaning | host/bifrost/src/merge.rs:278-374 | after any well-formed snapshots, of any kinds in any order, the row's kind is that of the first histogram, or else of the first snapshot, and its value is the sum modulo 2^64, the attained bound, or the bucketwise sum modulo 2^64 of the snapshots of that kind alone |
| AggRows.OwnKindOnly | host/bifrost/src/merge.rs:286-361 | a row's value is what the snapshots of its own kind would have given alone |
| AggFold.OrderIndependent | host/bifrost/src/merge.rs:278-374 | for compatible snapshots the row's kind and value do not depend on the order of arrival |
| AggFold.PairCommutesIff | host/bifrost/src/merge.rs:295-320 | two snapshots commute if and only if they share a kind or exactly one of them is a histogram |
| AggOrder.OrderIndependentIff | host/bifrost/src/merge.rs:278-374 | every order of arrival of given well-formed snapshots gives the same kind and value if and only if they share one kind or histograms of one kind are among them |
| AggFold.ContributorsAreSnapshots | host/bifrost/src/merge.rs:363-373 | with one snapshot per target the contributors are exactly the snapshots |
| AggFold.ResnapshotDoubleCountsIff | host/bifrost/src/merge.rs:322-373 | the smallest case: two snapshots of one target are both in the row but only the second is a contribution, so the two agree if and only if the first was zero |
| AggResnapshot.ContributorsAreLatest | host/bifrost/src/merge.rs:363-373 | a row's contributors are each target's last value, however often it reported |
| AggResnapshot.SumRowAgreesIff | host/bifrost/src/merge.rs:322-373 | a row of counts or sums from any snapshots equals the sum of its contributions if and only if what was replaced adds up to zero modulo 2^64 |
| AggResnapshot.HistogramRowAgreesIff | host/bifrost/src/merge.rs:343-373 | a histogram row, with scalars in between or not, holds in a bucket the sum of its contributions if and only if the replaced counts of that bucket add up to zero modulo 2^64 |
| AggResnapshot.BoundRowAgreesIff | host/bifrost/src/merge.rs:329-373 | a minimum or maximum row is that of its contributions if and only if every snapshot is matched by a current contribution |
| AggReducer.AddBuckets | host/bifrost/src/merge.rs:343-356 | the bucket loop adds the incoming list to the collected one |
| AggReducer.MergeInto | host/bifrost/src/merge.rs:286-373 | the branches of the merge compute the cell the fold prescribes |
| AggReducer.MergeTracks | host/bifrost/src/merge.rs:278-374 | merging one snapshot keeps every row equal to the fold of its own snapshots |
| AggReducer.RowHolds | host/bifrost/src/merge.rs:278-374 | every row of a reducer holds that kind and value for the snapshots logged for it |
| AggReducer.Reducer.constructor | host/bifrost/src/merge.rs:269-273 | a reducer starts without rows |
| AggReducer.Reducer.Merge | host/bifrost/src/merge.rs:278-374 | every row stays the fold of the snapshots it got; the named row exists afterwards and no other row changes |
| AggReducer.RowsOrderIndependent | host/bifrost/src/merge.rs:278-374 | two reducers fed the same snapshots in any two orders hold exactly the same rows, contributors included, when each row's snapshots come from distinct targets and are compatible |
| SchemaSpec.FieldsTile | host/bifrost-support/src/schema.rs:94-136 | a byte is inside the record if and only if some field covers it, and then only one does |
| SchemaSpec.RecordSizeIs | host/bifrost-support/src/schema.rs:94-136 | a record takes one, two, four or eight bytes for each number, four for a guest pointer, the announced lengths of bytes and strings and eight bytes per stack frame, and nothing else |
| SchemaSpec.FieldLayout | host/bifrost-support/src/schema.rs:77-195 | a field on the wire is its tag from 1 to 10, the length of its name, the name, and the parameter of its kind in its own width |
| SchemaSpec.TagRefusedIff | host/bifrost-support/src/schema.rs:198-286 | a field with a readable name is refused for its tag if and only if the tag is not one of 1 to 10 |
| SchemaCodec.SchemaReads | host/bifrost-support/src/schema.rs:198-283 | on any input that agrees with an encoding as far as it goes, the decoder returns that schema and its length, or an out-of-range error if the input stops early |
| SchemaCodec.RoundTrip | host/bifrost-support/src/schema.rs:149-283 | decoding an encoding followed by anything returns the schema and the encoded length |
| SchemaCodec.TruncationDetected | host/bifrost-support/src/schema.rs:149-283 | every strict prefix of an encoding is refused with an out-of-range error |
| SchemaCodec.DecodeRewrites | host/bifrost-support/src/schema.rs:149-283 | every accepted input is, byte for byte, the encoding of the schema returned |
| SchemaCodec.Write | host/bifrost-support/src/schema.rs:149-195 | the writer returns the encoding if and only if there are at most 32767 fields, names have at most 255 bytes and the format is shorter than 2^32; otherwise the original panics |
| SchemaCodec.Parse | host/bifrost-support/src/schema.rs:198-283 | the loop over a moving offset computes the decoding function, errors included |
| WireParts.TableReads | host/bifrost-wire/src/codec.rs:399-444 | a counted relocation table is sliced verbatim, or reported truncated if the input stops inside it |
| WireParts.TableEntries | host/bifrost-wire/src/codec.rs:399-444 | every table the walk accepts is a count followed by that many whole entries |
| WireParts.PartsRead | host/bifrost-wire/src/codec.rs:287-444 | a sequence of length-prefixed parts is read back, or reported truncated if the input stops inside it |
| FieldReloc.Write | host/bifrost-wire/src/codec_field_reloc.rs:30-65 | the section is written exactly when every name has 1 to 255 bytes; otherwise a prefix has been written |
| FieldReloc.EntryLayout | host/bifrost-wire/src/codec_field_reloc.rs:30-65 | a relocation is its instruction index, access, byte offset and two name lengths at bytes 0, 4, 5, 6 and 7, then the two names |
| FieldReloc.ReadOne | host/bifrost-wire/src/codec_field_reloc.rs:113-150 | a record that is read ends inside the slice and moves the cursor forward |
| FieldReloc.GotReads | host/bifrost-wire/src/codec_field_reloc.rs:113-150 | on arbitrary bytes, a record that is read is a whole entry and carries that entry's fields |
| FieldReloc.SectionRewalks | host/bifrost-wire/src/codec_field_reloc.rs:73-150 | any well-formed section is walked to its last byte with every record yielded and no error or panic |
| FieldReloc.RoundTrip | host/bifrost-wire/src/codec_field_reloc.rs:30-150 | iterating over an encoded section yields the relocations in order and ends at its last byte |
| FieldReloc.DrainMeaning | host/bifrost-wire/src/codec_field_reloc.rs:73-150 | on arbitrary bytes the iterator finishes if and only if the wrapper's own walk succeeds, and panics if and only if intact records are followed by exactly seven bytes |
| FieldReloc.SevenBytesPanic | host/bifrost-wire/src/codec_field_reloc.rs:113-128 | an eleven-byte slice, a count of one and seven bytes, on which the iterator panics |
| FieldReloc.Iter.Open | host/bifrost-wire/src/codec_field_reloc.rs:96-111 | a slice without a count is refused; otherwise iteration starts after the count |
| FieldReloc.Iter.Next | host/bifrost-wire/src/codec_field_reloc.rs:75-91 | one record per call; an error is reported once and ends the iteration |
| FieldReloc.Iter.DrainAll | host/bifrost-wire/src/codec_field_reloc.rs:73-91 | draining the iterator yields what the draining function yields |
| Bfr7Spec.Name32 | host/bifrost-wire/src/lib.rs:869-883 | a name is copied up to 31 bytes and padded with zeros to 32 |
| Bfr7Codec.MapLayout | host/bifrost-wire/src/codec.rs:697-710 | a map record is type, key size, value size, entries and descriptor as 32-bit words, then the padded name |
| Bfr7Codec.KfuncLayout | host/bifrost-wire/src/codec.rs:718-729 | a kernel-function entry is the instruction index, the name's length and the name |
| Bfr7Codec.ProgramReads | host/bifrost-wire/src/codec.rs:266-465 | one program is read back exactly, or reported truncated if the input stops inside it |
| Bfr7Codec.RoundTrip | host/bifrost-wire/src/codec.rs:606-740 | decoding an encoded wrapper followed by any suffix yields exactly its programs, names padded or cut to 31 bytes, and leaves the cursor at the encoding's end |
| Bfr7Codec.TruncationDetected | host/bifrost-wire/src/codec.rs:245-478 | every strict prefix yields a strict prefix of the programs, unaltered, and then a truncation error |
| Bfr7Codec.DecodedIsConsistent | host/bifrost-wire/src/codec.rs:283-394 | any decoded program has the trailer of its probe type and whole instructions |
| Bfr7Codec.SurvivesIff | host/bifrost-wire/src/codec.rs:612-740 | a program the encoder accepts comes back unchanged if and only if its trailer is the one of its probe type, its instructions are whole and every length and count fits 32 bits |
| Bfr7Format.ComesBackIff | host/bifrost-wire/src/codec.rs:612-740 | a program with strings in range comes back from encoding and decoding if and only if its type and trailer are 0, 1, 6, 7 or 8 without one, 2 or 3 with a path, 4 or 5 with a symbol, 9 with a USDT probe or 10 with a timer, its instructions are whole and every count and length fits 32 bits |
| Bfr7Format.ComesBackAs | host/bifrost-wire/src/codec.rs:612-740 | what comes back has the name cut to 31 bytes and padded, the type with bit 8 set for field relocations, and everything else as it was |
| Bfr7Format.EncodableIffInRange | host/bifrost-wire/src/codec.rs:624-737 | the encoder accepts exactly paths of up to 256 bytes, basenames and providers of 1 to 64, symbols and probes of 1 to 256, and other names of 1 to 255 |
| Bfr7Format.EncodeErrorIs | host/bifrost-wire/src/codec.rs:624-737 | the encoder reports an error if and only if some string is out of range, and the error names one that is, trailer before kernel functions before relocations |
| Bfr7Format.DecodeErrorMeans | host/bifrost-wire/src/codec.rs:266-371 | a program is refused for its probe type if and only if the type is above 10; every other error of the decoder but truncation names a type and a length that do not go together |
| Bfr7Format.DecodedInRange | host/bifrost-wire/src/codec.rs:266-466 | whatever was decoded has the trailer of its type, strings in range and whole instructions |
| Bfr7Format.DecodedRewrites | host/bifrost-wire/src/codec.rs:266-466 | whatever was decoded, written back piece by piece, is exactly the bytes that were read |
| Bfr7Format.ProgramLayout | host/bifrost-wire/src/codec.rs:612-740 | a program on the wire is its name, flags, trailer, schema, maps, instructions, kernel functions and field relocations in this order, each behind its length or count |
| Bfr7Format.MapsLayout | host/bifrost-wire/src/codec.rs:698-712 | map records lie one after another, 52 bytes each |
| Bfr7Format.WrapperLayout | host/bifrost-wire/src/codec.rs:606-611 | a wrapper is the letters BFR7, the number of programs and the programs |
| Bfr7Format.WrapperRefusedIff | host/bifrost-wire/src/codec.rs:245-264 | a wrapper is refused as a whole if and only if it is shorter than eight bytes or begins with other letters |
| Bfr7Codec.MismatchedTrailerLost | host/bifrost-wire/src/codec.rs:612-690 | a timer trailer on a tracepoint is accepted by the encoder and does not come back |
| Bfr7Codec.FieldSectionRewalks | host/bifrost-wire/src/codec.rs:422-446 | in any decoded program the field-relocation slice is walked without error and ends exactly at its end |
| Bfr7Writer.EncodeErrorIff | host/bifrost-wire/src/codec.rs:624-737 | the encoder reports no error exactly for programs whose lengths are all in range |
| Bfr7Writer.WriteTrailer | host/bifrost-wire/src/codec.rs:624-688 | the trailer is written as its parts, or the first length out of range is reported |
| Bfr7Writer.WriteKfuncs | host/bifrost-wire/src/codec.rs:718-729 | the table is written, or the first name out of range is reported |
| Bfr7Writer.WrapperBuilder.PushProgram | host/bifrost-wire/src/codec.rs:612-740 | the sink grows by exactly the program's encoding, or by a part of it and the first fault is reported |
| Bfr7Reader.ReadEntries | host/bifrost-wire/src/codec.rs:399-444 | the loop over a relocation table slices exactly what the walk accepts |
| Bfr7Reader.ReadTrailer | host/bifrost-wire/src/codec.rs:287-369 | each probe type reads its own trailer; other types are refused |
| Bfr7Reader.DecodeOne | host/bifrost-wire/src/codec.rs:266-465 | the cursor-moving decoder computes the decoding function, errors included |
| Bfr7Reader.ProgramIter.Open | host/bifrost-wire/src/codec.rs:245-264 | the header is checked and iteration starts after it |
| Bfr7Reader.ProgramIter.Next | host/bifrost-wire/src/codec.rs:217-235 | a program advances the cursor; an error is reported once and stops the iterator |
| Bfr7Reader.ProgramIter.DrainAll | host/bifrost-wire/src/codec.rs:214-236 | draining the iterator yields what the wrapper decodes to, with the cursor where it ended |
| Dof.ParseBlob | crates/bifrost-dtrace-lower/src/dof.rs:307-338 | a blob is accepted if and only if header, magic, row size and table bounds are right; the table is then the announced slice |
| Dof.SectionAt | crates/bifrost-dtrace-lower/src/dof.rs:217-224 | every index below the count has a header, and no other |
| Dof.SectionBytes | crates/bifrost-dtrace-lower/src/dof.rs:190-215 | a payload is returned if and only if the section exists, lies inside the blob and is a whole number of entries or has no entry size; each failure has its own error |
| Dof.SectionIter.Next | crates/bifrost-dtrace-lower/src/dof.rs:233-246 | the headers are yielded one by one in declaration order, each with its own index |
| DofFormat.HeaderParses | crates/bifrost-dtrace-lower/src/dof.rs:307-338 | a canonical file header before any bytes is accepted if and only if the table it announces lies inside the blob |
| DofFormat.SectionParses | crates/bifrost-dtrace-lower/src/dof.rs:260-278 | a section row of the canonical layout is read field by field |
| DofFormat.SectionIsRow | crates/bifrost-dtrace-lower/src/dof.rs:217-224 | the header of a section is the row of the table with its index |
| DofFormat.EcbParses | crates/bifrost-dtrace-lower/src/ecb.rs:37-62 | an ECB row, padded or not, is read field by field |
| DofFormat.KindMeaning | crates/bifrost-dtrace-lower/src/action.rs:76-111 | a code is known if and only if it is in 0 to 7, 0x20 to 0x22, 0x30 to 0x35, 0x600 to 0x601 or 0x700 to 0x7ff, and destructive exactly in 0x31 to 0x35 |
| DofFormat.ActionParsesIff | crates/bifrost-dtrace-lower/src/action.rs:137-158 | an action row is refused if and only if it is shorter than 32 bytes or the word at byte 8 is no known code; otherwise its fields are the words of the row |
| DofFormat.ActionParses | crates/bifrost-dtrace-lower/src/action.rs:137-158 | an action row of a known code in the canonical layout, padded or not, is read field by field and classified by its code |
| DofFormat.ProbeResolves | crates/bifrost-dtrace-lower/src/session.rs:136-200 | a probe row and its string table resolve to the four strings they name, each in its own place |
| DofFormat.CstrMeaning | crates/bifrost-dtrace-lower/src/session.rs:193-200 | a string reads as the bytes up to a NUL or the table's end, and as empty if and only if it is empty, outside the table or not UTF-8 |
| DofFormat.ResolveMeaning | crates/bifrost-dtrace-lower/src/session.rs:136-192 | which probe sections fail and with which error, and that a row shorter than 16 bytes resolves to no probe and nothing else does |
| Ecb.SectionRows | crates/bifrost-dtrace-lower/src/ecb.rs:90-121 | a readable ECB section contributes exactly one item per row, in order |
| Ecb.OtherSections | crates/bifrost-dtrace-lower/src/ecb.rs:90-121 | sections of other kinds and ECB sections without an entry size contribute nothing, an unreadable ECB section contributes its error |
| Ecb.StreamSplits | crates/bifrost-dtrace-lower/src/ecb.rs:87-127 | the stream is what the sections contribute, in order |
| Ecb.RowOutside | crates/bifrost-dtrace-lower/src/ecb.rs:156-169 | an action row past the end of its section is an error that says where it would have been |
| Ecb.EcbIter.constructor | crates/bifrost-dtrace-lower/src/ecb.rs:66-74 | a fresh iterator has the whole stream of all sections before it |
| Ecb.EcbIter.Next | crates/bifrost-dtrace-lower/src/ecb.rs:87-127 | each call yields the head of what is left, over section boundaries; the end is reached exactly when nothing is left |
| Ecb.RowArithmeticFits | crates/bifrost-dtrace-lower/src/ecb.rs:156-169 | neither the row multiplication nor the row's end can pass 64 bits |
| Ecb.SentinelNamesNoOperator | crates/bifrost-dtrace-lower/src/session.rs:111-121 | the operator code taken from an aggregation sentinel is never a known operator |
| SessionSpec.Terminated | crates/bifrost-dtrace-lower/src/session.rs:193-200 | a string ends before the first NUL or at the table's end |
| SessionSafety.DriveOneLive | crates/bifrost-dtrace-lower/src/session.rs:59-130 | an ECB leaves its probe attached if and only if it is accepted, or it aborts after attaching |
| SessionSafety.SessionAccounts | crates/bifrost-dtrace-lower/src/session.rs:34-57 | when a session returns a count, every row got a verdict, the count is the number of accepted ids and those are exactly the probes left attached; when it fails at most one more is |
| SessionVerdicts.WalkAcceptsIff | crates/bifrost-dtrace-lower/src/ecb.rs:132-176 | the walk ends without complaint if and only if every row is readable, plain and taken by the adapter, and then all are recorded once in order |
| SessionVerdicts.AcceptedIff | crates/bifrost-dtrace-lower/src/session.rs:59-130 | an ECB is accepted if and only if its probe attaches, its predicate binds and every action is clean; the adapter then saw exactly those calls |
| SessionVerdicts.FirstComplaintWins | crates/bifrost-dtrace-lower/src/session.rs:82-128 | in a readable chain the first row with a complaint decides the verdict and no later row reaches the adapter |
| SessionVerdicts.AbortsOnlyMalformed | crates/bifrost-dtrace-lower/src/session.rs:64-124 | whatever the adapter, only a malformed ECB aborts the session |
| SessionVerdicts.AbortsExactly | crates/bifrost-dtrace-lower/src/session.rs:59-130 | for every adapter an ECB aborts the session if and only if its probe cannot be read, or, once it is attached, its predicate section cannot, or a row of its chain stops the walk |
| SessionVerdicts.AbortsIff | crates/bifrost-dtrace-lower/src/session.rs:11-17 | with an adapter that agrees to everything an ECB aborts the session instead of being rejected if and only if it is malformed, and its probe then stays attached |
| SessionActions.DestructiveNotAccepted | crates/bifrost-dtrace-lower/src/session.rs:92-95 | an ECB with a row whose word at byte 8 is in 0x31 to 0x35 is not accepted, whatever the adapter would answer |
| SessionActions.SessionIsCalm | crates/bifrost-dtrace-lower/src/session.rs:34-130 | in no session, with no adapter and no blob, is an action with such a code recorded; every recorded action comes with the bytes of the code section it names, or with none if it names none |
| SessionActions.EveryVerdict | crates/bifrost-dtrace-lower/src/session.rs:59-130 | every ECB either aborts the session, or is accepted, or is turned down: no match for an unresolved probe, no provider, the adapter's own reason for the attach or the predicate, or the complaint of the first row that is not clean; with the calls made in each case and the probe detached again |
| SessionRuns.SessionMeaning | crates/bifrost-dtrace-lower/src/session.rs:34-57 | a session the adapter lets begin reports one verdict per row in order, each row driven after the calls of the rows before it, stops at the first row that is unreadable or aborts, and otherwise ends with the end event and the number of accepted rows |
| SessionWitness.SessionAborts | crates/bifrost-dtrace-lower/src/session.rs:34-57 | a concrete blob that parses and holds one ECB, on which a whole session fails without a verdict and leaves the probe attached |
| SessionDriver.OnAction | crates/bifrost-dtrace-lower/src/session.rs:83-123 | the callback's effect on the adapter and on the pending rejection is the action step |
| SessionDriver.ReadRow | crates/bifrost-dtrace-lower/src/ecb.rs:156-173 | a row is read with 64-bit arithmetic that never overflows |
| SessionDriver.WalkActions | crates/bifrost-dtrace-lower/src/ecb.rs:132-176 | the row loop is the action walk |
| SessionDriver.DriveEcb | crates/bifrost-dtrace-lower/src/session.rs:59-130 | driving one ECB has the specified status and leaves the specified call history |
| SessionDriver.DriveSession | crates/bifrost-dtrace-lower/src/session.rs:34-57 | the session has the specified result and history, the callback saw each verdict once with indices 0, 1, 2 and so on, and nothing destructive was recorded, nor anything with another code section than it names |
| Branch.CutKeepsIff | host/bifrost/src/lower/branch.rs:13-14 | cutting a displacement to 16 bits keeps it if and only if it fits |
| Branch.FixPatches | host/bifrost/src/lower/branch.rs:7-19 | after a successful fixup every branch holds its own displacement, whatever was patched later |
| Branch.FixOkIff | host/bifrost/src/lower/branch.rs:8-12 | the fixup succeeds if and only if every label was recorded |
| Branch.RunsAligned | host/bifrost/src/lower/branch.rs:23-27 | every lowering run of whole instructions keeps labels and branches on instruction boundaries |
| Branch.OpLeavesMark | host/bifrost/src/lower/branch.rs:23-27 | in any run, what one operation emitted stays where the body ended then, a label is that place, and a branch is remembered with that place and its own destination |
| Branch.BranchLandsIff | host/bifrost/src/lower/branch.rs:7-27 | after any lowering run that starts without labels, and the fixup, a branch lands on its label if and only if the distance fits 16 bits |
| BranchSections.KeptLabels | host/bifrost/src/lower/mod.rs:741-745 | a section lowered after others records the labels it would record alone, behind those that were kept, and emits the same code |
| BranchSections.OwnTargetIff | host/bifrost/src/lower/mod.rs:707-730 | whatever was lowered before, a branch of the section whose distance fits goes to its own target if and only if the label it is resolved with is at the same place |
| BranchSections.ChainGoesHomeIff | host/bifrost/src/lower/action.rs:25-45 | in a chain of any number of sections whose source instructions emit code, lowered and fixed up one after another, a branch goes to its own section's target in the finished body if and only if the labels are cleared before each section, or it is in the first section and none had been recorded |
| BranchSections.SecondSectionLoops | host/bifrost/src/lower/action.rs:25-45 | two sections, the second a branch to its own end: resolved with the first section's labels, the branch goes to itself |
| Branch.FarBranchMisses | host/bifrost/src/lower/branch.rs:13-16 | a branch over 32768 instructions is patched without an error and points before itself |
| Branch.OthersUnchanged | host/bifrost/src/lower/branch.rs:15-16 | all bytes outside the offset fields are what was emitted |
| Branch.CheckerAgrees | host/bifrost/src/verify.rs:234-245 | a bad branch the checker reports is never one of the patched branches whose distance fits |
| BranchTargets.PatchedBranchLandsIff | host/bifrost/src/lower/branch.rs:7-27 | after any run of whole instructions and the fixup, a branch lands on its label and on an instruction if and only if the distance fits and the label is before the end of the body |
| BranchTargets.EndLabelMisses | host/bifrost/src/lower/mod.rs:741-745 | a branch to a label at the end of the body reaches the label, where no instruction is |
| Branch.LowerState.EmitBranchPlaceholder | host/bifrost/src/lower/branch.rs:23-27 | the instruction is appended and remembered with its position and label |
| Branch.LowerState.RecordLabel | host/bifrost/src/lower/mod.rs:741-745 | the next instruction's position is recorded as a label |
| Branch.LowerState.FixupBranches | host/bifrost/src/lower/branch.rs:7-19 | the loop patches exactly what the fixup function patches and fails if and only if a label is missing |
| StaticCheck.InsnReads | host/bifrost/src/verify.rs:122-145 | opcode, registers, offset and immediate of an encoded slot are read back, signs included |
| StaticCheck.CheckMeaning | host/bifrost/src/verify.rs:149-257 | the check passes if and only if no instruction has a fault, and otherwise reports the fault of the first faulty one; second halves of wide instructions are not instructions |
| StaticCheck.PassesIff | host/bifrost/src/verify.rs:149-257 | a program passes if and only if it is whole slots and every instruction keeps the register, stack, call, wide-load and branch rules |
| StaticInsns.PassesIffInsns | host/bifrost/src/verify.rs:149-257 | a program passes if and only if it is one or more instructions laid end to end, each of eight bytes, or of sixteen for a wide load with a zero second opcode, that keep the register, stack, helper and branch rules |
| StaticInsns.FaultIs | host/bifrost/src/verify.rs:149-257 | every fault names its own instruction, the offending value and the rule it breaks |
| BranchTargets.JumpLandsIff | host/bifrost/src/verify.rs:149-257 | a jump of either class of a program that passes lands on an instruction if and only if its target is a slot of the program and not the second half of a wide load; for the 64-bit class the target is in the program or at its very end |
| BranchTargets.PassesIntoWide | host/bifrost/src/verify.rs:149-257 | a program that passes although its jump goes into the middle of a wide load |
| BranchTargets.PassesOffTheEnd | host/bifrost/src/verify.rs:236-245 | a program of one jump that passes although the jump goes past the last instruction |
| BranchTargets.NarrowJumpPasses | host/bifrost/src/verify.rs:149-257 | a program of one jump of the 32-bit class passes whatever the offset, and the jump lands on an instruction if and only if it goes to itself |
| StaticCheck.Run | host/bifrost/src/verify.rs:149-257 | the index loop computes the check |
| Conduit.StepConserves | host/virtio-conduit/src/lib.rs:146-191 | each step of either thread that drops nothing keeps written, held and waiting payloads equal to those offered |
| Conduit.PayloadsConservedIff | host/virtio-conduit/src/lib.rs:146-191 | in every interleaving the payloads written, held and waiting are exactly those offered, in order, if and only if nothing was appended or put back under a poisoned lock |
| Conduit.DeliveredIsPrefix | host/virtio-conduit/src/lib.rs:158-191 | what reached the guest is a prefix of what was offered |
| Conduit.CanDeliverAll | host/virtio-conduit/src/lib.rs:146-191 | from any state with a sound lock the queue thread alone can write everything out, in the order it was offered |
| Conduit.TagsConservedIff | host/virtio-conduit/src/lib.rs:146-191 | over any run that drops nothing, the entries still to be written, tags included, are exactly the rest of what was offered if and only if the one now first in line was never refused while it carried a tag |
| Conduit.RefusedOnce | host/virtio-conduit/src/lib.rs:180-186 | one tagged payload popped and refused once waits again without its tag |
| Conduit.PoisonedAppend | host/virtio-conduit/src/lib.rs:180-186 | a payload appended under a poisoned lock is gone |
| Conduit.Host.NextControlPayload | host/virtio-conduit/src/lib.rs:146-156 | the first waiting payload is taken and the sent flag is set |
| Conduit.Host.ProcessControlQueue | host/virtio-conduit/src/lib.rs:158-191 | as many payloads as there are descriptors are written in order; the first that does not fit returns to the front; the flags follow |

## Left out

- RingConcurrent.EveryInterleavingIsFifo: one producer and one consumer per ring; several producers are in `RingSharedProducers` and `RingOverlap`, the consumer is one thread there too.
- RingOverlap.OverlapHarmlessIff: one schedule of two pushes on an empty ring; `RingOverlap.MayBeginIff` and `RingOverlap.OverlapBreaks` are about every reachable state.
- RingOverlap.OverlapLoses: the same one schedule.
- RingProgress.WrapKeepsHeadsIff: with `RingProgress.WrapKeepsApartIff`, says where positions lie after 2^64, not what the queue then holds; elsewhere positions of the control rings are unbounded.
- BranchSections.ChainGoesHomeIff: for sections whose every source instruction emits code; `BranchSections.OwnTargetIff` is for any section.
- ControlRing.Ring.PollRsp: the deadline is a bound on loop rounds instead of a clock.
- ControlRing.Ring.Push: keeps the ring valid for entries whose length fits 32 bits and whose kind is not the pad kind; the other entries are covered by `RingQueue.PushDeliversIff`.
- ControlShm.Shm.Create: the environment variables and the failures of the system calls are not modelled.
- DataRing.RecordsBetween: reads bytes that do not change during the walk, so the bounded spin on a busy record is one read.
- AggReducer.Reducer.Merge: sums wrap around, as an unchecked build does; a checked build panics on overflow instead.
- Bfr7Writer.WrapperBuilder.PushProgram: the sink never runs out of room, as a growing one does not; a fixed buffer does.
- SessionDriver.DriveSession: the verdict index and the accepted count are unbounded, where the original counts in 32 bits.
- SessionSafety.SessionAccounts: that adapters hand out fresh ids is the adapter's promise and a hypothesis here.
- SessionVerdicts.AbortsIff: about one adapter, because it shows which blobs can abort a session at all; `SessionVerdicts.AbortsExactly` is for every adapter.
- Hardware memory ordering: threads interleave sequentially consistent steps.
- Diagnostics inside errors: the `need`, `have` and `at` values of a truncation error, and message texts.
- UTF-8: string validity is an arbitrary predicate on byte strings; map descriptors are given as their 32-bit pattern.
- Shared-memory setup, file descriptors, wake-ups, virtqueue descriptors and logging are I/O.
- The guest-kernel producer of the data ring, and the rest of the DIF-to-eBPF lowering that fills the body.
- The hello, self-trace, profile, load-status, session-envelope and SHMEM header codecs: the same length-prefixed pattern with fewer cases.
- ELF, vDSO, BTF and symbol-table readers, hashing, and libdtrace bindings: field extraction or foreign calls.
- D-source scanning, translator expansion and plan routing: string processing without a protocol.
