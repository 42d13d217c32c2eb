# Verified model of the Rtcr checkpoint/restore monitor

Rtcr intercepts the services of one Genode component (the child), so that it can write down the child's
sessions, capabilities and memory (checkpoint) and build an equal child from that record later (restore).
This project models the parts of Rtcr whose correctness depends on several functions or on many steps, and
proves what they keep.

* **Incremental checkpointing** (`Tiles`, `Pager`, `ManagedRam`, `RamSession`, `MemoryPlan`, `Incremental`,
  `IncrementalProgress`, `IncrementalShipped`, `CheckpointMemory`). A managed dataspace is filled with tiles. A detached tile has not
  been touched since the last checkpoint; a page fault attaches it again; a checkpoint copies attached tiles only.
  The main theorem, `Incremental.CheckpointIsFull`, says that the copies nevertheless equal full copies, in every
  interleaving of child accesses, allocations, pager steps and checkpoint phases; `IncrementalProgress.CheckpointPossible`
  says that a checkpoint can always be brought to its end.
* **Reconciliation of the stored state** (`CopyTable`, `CopyRegistry`, `Reconcile`, `ReconcileKeys`, `StoredState`,
  `StoredRegions`, `StoredStateMirror`, `MirrorsExactly`, `StoredStateRefs`, `ClosedSessions`, `StoredStateRuns`, `StoredKcaps`,
  `CopyMoves`, `MapMoves`, `SessionMoves`, `Checkpointer`). The two-pass loop of the `_prepare_*` methods is defined once, for any kind of record, and every loop
  of the class `Checkpointer` is proved to compute it. Main theorems: `CheckpointMirrorsIff`, `CheckpointIdempotent`,
  `RefCountsExact`, `KcapsEverRight`, `PrepareRegionsExactIff`, `CopyNeverReplaced`, `CheckpointKeepsCopyIff`.
* **Reconciliation as a phase of the checkpoint** (`StoredBadges`, `PrepareStep`, `SavedRecords`). The main theorem,
  `PrepareStep.CheckpointPrepares`, says that reconciling a consistent stored state is the preparation step of the
  incremental state machine, for a child with any RAM dataspaces and any other attached ones.
* **Restore by renaming** (`Translation`, `RestoreState`, `Restorer`, `RestoreRegions`, `RestoreSessions`, `RestoredState`,
  `AnyCheckpoint`, `RestoreExample`). Main theorems: `Restorer.IdentifyRecreate` (it succeeds if and only if the state is restorable, and
  then the translation is total and one to one), `RestoredState.AfterIdentifyRecreate` (then every later lookup finds its
  object, and exactly when the rest gets through) and `RestoredState.EveryMapRestored` (every region map has the stored
  attachments).
* **The memory of a restored child** (`RestoreMemory`, `RestoreList`, `RoundTrip`, `RoundTripIff`, `TwoRegions`,
  `CheckpointExample`, `RoundTripExample`). The main theorem, `RoundTrip.RoundTrip`, composes the ones above: checkpoint and
  restore undo each other, byte by byte, as long as what regions of dataspaces of unknown origin show is within what is
  saved and restored of them; `RoundTripIff.RoundTripIff` says that this is exactly when they do.
* **The capability map** (`CapMap`, `CapMapSplice`). Badges and list pointers are written byte by byte into an array of
  the child. Main theorems: `CapabilitiesFound`, `ScanAfterSplice`, `ReachableIffSplicePoint`, `PatchHitsIff`,
  `PointersHitIff`.
* **Matching bootstrapped dataspaces** (`MergeSort`, `RamIdentify`). Main theorems: `MergeSort.Sort` with its parked
  cursors, `FillInBoundsIffPrefix`, `PairingIsOrderIsomorphism`.
* **Mirroring a region map** (`RegionMirror`). Main theorems: `DetachMirrorsIff`, and over whole runs `RunMirrorsIff`.

`InfoList`, `Memory`, `Folding` and `Variants` hold what the others share. A dataspace of unknown origin is one that the
child has attached but that none of its RAM sessions allocated, such as a ROM. `Variant.Shipped` stands for the code as it
is, `Variant.Intended` for a loop as its comments or names say it should be.

## Assumptions

`Genode::List` is not part of the sources. `insert` is taken to put an element in front and `remove` to take one out;
a list is a sequence with `first()` at index 0. The parent's services are assumed to hand out badges that never repeat.
Each attach, detach, call of the fault handler and phase of a checkpoint is one atomic step. The model of a real region
map (what it has attached, which threads wait for an unattached address, oldest first) stands for the kernel object.

The theorems on reference counts and copies of whole checkpoints assume that the dataspace of a region map is seen attached
only while the region map is listed (`StoredStateRefs.Admissible`). For a child that closes an RM session while one of its
maps is still attached elsewhere, `ClosedSessions.PrepareRegionsExactIff` says when the counts stay exact and
`ClosedSessionLosesCopy` shows that they need not. A RAM dataspace stays in the session that allocated it, and a region shows no more than
its dataspace has (`PrepareStep.Ready`).

Of a fresh child the round trip assumes that a dataspace made by bootstrapping is as large as it was in the predecessor
(`SameBootstrap`), that the child shares no memory with the stored copies, and that what was of unknown origin still is
(`NothingShared`). `RoundTripExample` has a run and a restore for which all assumptions hold.

## Where the code departs from its own intent

The model follows the code. Where the documentation or the comments promise more, there is a concrete input for which
the promise fails and a condition under which, for all inputs, it holds.

| place | what the code does | what is proved |
|---|---|---|
| src/rtcr/checkpointer.cc:1230 | an `if` where all attached tiles are meant (comment at 1224-1226) | `ShippedCompleteIff`, `TwoFreshTilesLost`; the intended loop is `Variant.Intended` |
| src/rtcr/restorer.cc:1101 | the same in the restorer | `ShippedRestoresAllIff`, `LowerTileNotRestored` |
| src/rtcr/restorer.cc:1367 | the content is copied from the child to the copy | `ShippedRightIff`, `ShippedRestoresNothing`; the intended direction is `RestoreReproduces` |
| src/rtcr/offline_storage/stored_attached_region_info.h:46, src/rtcr/online_storage/attached_region_info.h:71 | address lookups include the end of a region | `RegionsMirroredIff`, `UpperNeighbourLost`, `DetachMirrorsIff`, `LowerNeighbourForgotten` |
| src/rtcr/restorer.cc:937-948 | the same for a bootstrapped region of the child | `BootstrappedEntryIff`, `UpperRegionMisplaced` |
| src/rtcr/online_storage/ram_dataspace_info.h:168 | the same for tiles | harmless: `ClosedSearchFindsTile` |
| src/rtcr/restorer.cc:368-370, 376-378 | the slot index advances for entries that fill no slot | `FillInBoundsIffPrefix`, `FirstCheckpointFits`, `LaterAllocationOverruns`, `LaterStateNotRestorable`; with the intended fill, `FillArrayIntended`, states of any checkpoint can be restored: `AnyCheckpointRestorable` |
| src/rtcr/checkpointer.cc:409, src/rtcr/restorer.cc:984-1000 | a dataspace of unknown origin is saved over the size of the region seen first and restored over the size of the one stored first, which are not the same one, and from its start whatever the offset | `RoundTripIff`, `TwoRegionsFitIff`, `LargerRegionLost` |
| src/rtcr/intercept/ram_session.cc:20-21 | `continue` without advancing | `SearchEndsIff` |
| src/rtcr/intercept/ram_session.cc:41-44 | the map found is dereferenced unchecked, and two faults in one tile raise two signals | `SignalsHandledIff`, `TwoFaultsOneTile` |
| src/rtcr/restorer.cc:966-968 | a null pointer is dereferenced for a dataspace of unknown origin | `MemoryCollector.RestoreStateAttachedRegions` succeeds if and only if no such region is met |
| src/rtcr/restorer.cc:1201 | the offset in the stored copy is computed from the fresh child's region | `PatchHitsIff`, `PatchMisses`, `ShiftedRegionMissed` |
| src/rtcr/restorer.cc:1189, 1295 | the list pointers written are addresses in the fresh child's array, although the array is put where the stored allocator lay | `PointersHitIff` |
| src/rtcr/restorer.cc:1239-1249 | if no splice point is found, element 0 is taken | `ReachableIffSplicePoint` |
| src/rtcr/restorer.cc:142-147, 276-282 | a recreated PD or RAM session has no signal source and no bootstrapped dataspace, which is an error | part of `Restorable`, which `IdentifyRecreate` proves exact |
| src/rtcr/checkpointer.cc:381-384 | a copy can be replaced although its dataspace stays attached, if it moves to another region map | `CheckpointKeepsCopyIff`, `CopyKeptIff`, `MoveKeepsCopyIff`, `MoveToAnotherMapReplacesCopy` |
| src/rtcr/checkpointer.cc:431-441 | destroying a region's record releases a reference although the record may have taken none | `PrepareRegionsExactIff`, `ClosedSessionLosesCopy` |
| src/rtcr/intercept/ram_session.cc:197 | the size of the region map wraps to zero for the last page of 32 bits | `MapSizeIff` |
| src/rtcr/checkpointer.cc:1466 | the child is not resumed | `Incremental.Resumes` is the documented step; no theorem needs it |

## Reading the proofs

Some predicates are wrapped as `forall key {:trigger Unfold(key)} :: Unfold(key) ==> ...`, some with `UnfoldFor`. That changes nothing about
what they say; it keeps the verifier from expanding them where they are only passed along. A lemma named `Open...`
states the plain meaning. Lemmas carry `{:induction false}` where Dafny would otherwise add a hypothesis of its own: no
proof rests on automatic induction.

## Model

| member | source | states |
|---|---|---|
| MergeSort.Sort | src/rtcr/util/sort.h:19-67 | for every array, duplicates included, the result is sorted and a permutation of the input, and the recursion ends |
| MergeSort.Split | src/rtcr/util/sort.h:23-29 | the two new halves concatenated are the array, the second one at least as long |
| MergeSort.MergeHalves | src/rtcr/util/sort.h:34-65 | the in-place merge loop writes what the abstract run of the two jumping cursors emits |
| MergeSort.RunInBounds | src/rtcr/util/sort.h:34-65 | after any number of turns both cursors point into one of the halves, however the halves compare |
| MergeSort.RunMerges | src/rtcr/util/sort.h:34-65 | after all turns the output is sorted and holds every element of both halves once, although a parked cursor may be read many times |
| MergeSort.ParkedTakesEqual | src/rtcr/util/sort.h:41-46 | a first cursor parked on the other half's last element wins only against an equal element, so emitting its value again is emitting the element due |
| RamIdentify.CountBootstrapped | src/rtcr/restorer.cc:340-351 | the array sizes are the numbers of bootstrapped entries |
| RamIdentify.FillArray | src/rtcr/restorer.cc:363-379 | the shipped fill gets through if and only if it stays inside its array; then the array holds the timestamps of the bootstrapped entries in list order |
| RamIdentify.FillArrayIntended | src/rtcr/restorer.cc:363-379 | a fill whose slot advances for bootstrapped entries only always stays inside its array and holds their timestamps in list order |
| RamIdentify.FillInBoundsIffPrefix | src/rtcr/restorer.cc:363-379 | the fill stays inside its array if and only if the bootstrapped entries are a prefix of the list |
| RamIdentify.SortedAtRank | src/rtcr/restorer.cc:381-383 | in the sorted array a timestamp stands at its creation rank, the number of older bootstrapped entries |
| RamIdentify.IdentifyRamDataspaces | src/rtcr/restorer.cc:329-396 | the matcher stays inside its arrays if and only if there are enough live bootstrapped entries and, with the shipped fill, bootstrapped entries come first in both lists; then stored and live bootstrapped dataspaces are paired exactly if their creation ranks agree, all stored ones are paired, and all live ones if the counts agree |
| RamIdentify.FindByTimestamp | src/rtcr/online_storage/ram_dataspace_info.h:63-69 | although the search walks entries that are not bootstrapped too, it returns the bootstrapped entry with that timestamp |
| RamIdentify.PairingIsOrderIsomorphism | src/rtcr/restorer.cc:385-393 | the pairing keeps the creation order and neither merges nor splits dataspaces |
| CapMap.WriteNext | src/rtcr/restorer.cc:1288 | the four-byte write of a list pointer changes that field of that element and no other byte of any element |
| CapMap.WriteRefCount | src/rtcr/restorer.cc:1290 | the one-byte write of the reference count changes that field of that element only |
| CapMap.WriteBadge | src/rtcr/restorer.cc:1292 | the two-byte write of a badge stores it modulo 2^16 in that element and disturbs no other field or element |
| CapMap.CreateCapMapInfos | src/rtcr/checkpointer.cc:83-119 | the address-driven loop over the bytes yields the scan of the 4096 elements, the last in front |
| CapMap.ScanHas | src/rtcr/checkpointer.cc:97-111 | a pair is scanned if and only if its selector is a multiple of 0x1000 naming an element that holds its badge, which is neither 0 nor 0xffff |
| CapMap.ScanDescends | src/rtcr/checkpointer.cc:97-119 | the selectors stand in descending order, so each occurs once |
| CapMapSplice.RestoreCapMap | src/rtcr/restorer.cc:1230-1308 | byte for byte: the array of the child is taken over and spliced, nothing outside the array is written, and false is returned exactly where the original throws |
| CapMapSplice.WriteCapIndex | src/rtcr/restorer.cc:1287-1295 | the four field writes insert one element behind the previous one, byte-exact |
| CapMapSplice.FindPrevious | src/rtcr/restorer.cc:1238-1249 | the first element of the searched window with a successor, or element 0 |
| CapMapSplice.PreviousFromIs | src/rtcr/restorer.cc:1239-1249 | it is the first element of the window that has a successor if any has one, and 0 otherwise |
| CapMapSplice.RestoreCapMapAt | src/rtcr/restorer.cc:1185-1204 | seen through addresses, the element at address p being the eight bytes at p minus the start of the region: the array of the fresh child, eight bytes behind its allocator, is spliced and put eight bytes behind the address of the stored allocator; every other byte stays |
| CapMapSplice.ElementsAreSlots | src/rtcr/restorer.cc:1171-1183 | the layout of an element byte by byte: four bytes of pointer, one of references, one of padding, two of badge, the lowest byte first |
| CapMapSplice.InsertedBytes | src/rtcr/restorer.cc:1287-1295 | read at their addresses, an insertion gives the element the previous pointer, two references and the badge, and the previous element the address of this one; padding and all other elements stay |
| CapMapSplice.PointersLead | genode_patched_files/repos/base-foc/src/lib/base/cap_map.cc:35-44 | each pointer of a list of the array names, in the memory of the child, the next element of that list |
| CapMapSplice.PointersHitIff | src/rtcr/restorer.cc:1189-1295 | the pointers of the splice name the spliced elements in the restored child, for every stored content, if and only if the allocator lies at the same address in the fresh child as in the stored state |
| CapMapSplice.PatchHitsIff | src/rtcr/restorer.cc:1201 | for any array of the child and any capabilities: the array of the stored state becomes their splice, for every stored content, if and only if the region starts at the same address in both |
| CapMapSplice.PatchMisses | src/rtcr/restorer.cc:1201 | for any two different starts, a stored content whose array is wrong afterwards |
| CapMapSplice.ShiftedRegionMissed | src/rtcr/restorer.cc:1201 | the same for a region that was attached a page lower |
| CapMapSplice.SpliceAllChain | src/rtcr/restorer.cc:1252-1307 | any number of capabilities with distinct unused selectors keeps the list acyclic and null-terminated: the new elements follow the splice point in order, the old ones keep theirs |
| CapMapSplice.OthersKeep | src/rtcr/restorer.cc:1287-1295 | elements that are not written keep everything, the splice point everything but its pointer |
| CapMapSplice.EachWritten | src/rtcr/restorer.cc:1259-1295 | each capability ends up in the element its selector names, with its badge and two references |
| CapMapSplice.TargetsHas | src/rtcr/restorer.cc:1252-1262 | the elements written are exactly those that the selectors other than 0 name |
| CapMapSplice.SplicedIff | src/rtcr/restorer.cc:1264-1272 | the restore is given up if and only if a selector names an element beyond the 4096 of the array |
| CapMapSplice.ScanAfterSplice | src/rtcr/checkpointer.cc:83-119 | scanning after the splice yields exactly the old pairs that were not overwritten and the new ones |
| CapMapSplice.FindsFirst | genode_patched_files/repos/base-foc/src/lib/base/cap_map.cc:35-44 | the recursion along the child's pointers ends and returns the first element of the list with the id, or nothing |
| CapMapSplice.CapabilitiesFound | genode_patched_files/repos/base-foc/src/lib/base/cap_map.cc:35-85 | after the splice the child finds every new badge at the element of its selector and every old id where it was |
| CapMapSplice.ReachableIffSplicePoint | src/rtcr/restorer.cc:1238-1249 | the new elements are reachable from the head of the list if and only if the window holds an element with a successor |
| Tiles.ClosedSearchFindsTile | src/rtcr/online_storage/ram_dataspace_info.h:166-172 | because tiles are listed downwards, the closed-interval search finds the one tile that contains an address below the size, boundaries included |
| Tiles.ExactlyOneTile | src/rtcr/intercept/ram_session.cc:219-271 | every address below the size lies in exactly one tile, no other address in any |
| Tiles.NewTilesPartition | src/rtcr/intercept/ram_session.cc:182-271 | for every size and every granularity whose 32-bit tile size is not zero, the tiles partition the page-rounded dataspace, are attached and at most 4096 times the granularity large |
| Tiles.MapSizeIff | src/rtcr/intercept/ram_session.cc:189-197 | the 32-bit size asked for the region map is the extent of its tiles if and only if the dataspace is no larger than 2^32-4096; above it is zero |
| Tiles.DsSizePages | src/rtcr/intercept/ram_session.cc:186 | the 32-bit tile size is whole pages and wraps to zero, which the next line divides by, exactly for granularities divisible by 2^20 |
| Tiles.TileIs | src/rtcr/intercept/ram_session.cc:186-271 | for granularities below 2^20 the tile size is 4096 times the granularity; the k-th tile from below starts at k times that and is that large, but the last one ends with the dataspace |
| Pager.HandleFaultResolves | src/rtcr/intercept/ram_session.cc:38-70 | a call finds a fault if and only if a tile is waited for; it then attaches exactly the tile at the oldest address of the first faulting map, and one tile less is waited for |
| Pager.SignalsHandledIff | src/rtcr/intercept/ram_session.cc:81-89 | a batch of n signals is handled without dereferencing null if and only if at least n tiles are waited for |
| Pager.TwoFaultsOneTile | src/rtcr/intercept/ram_session.cc:81-89 | two threads that fault in one tile make the second call dereference null |
| Pager.SearchEndsIff | src/rtcr/intercept/ram_session.cc:12-35 | the search for the faulting map ends if and only if no unmanaged entry comes before the first faulting one |
| ManagedRam.DesignatedDataspace.Attach | src/rtcr/online_storage/ram_dataspace_info.h:183-215 | an unattached tile is attached at its place and wakes the threads waiting there, an attached one is left alone |
| ManagedRam.DesignatedDataspace.Detach | src/rtcr/online_storage/ram_dataspace_info.h:219-243 | an attached tile is detached by its address, a detached one is left alone |
| ManagedRam.ManagedMap.AttachAt | src/rtcr/online_storage/ram_dataspace_info.h:183-215 | attaching through the list keeps every attached flag in agreement with the real region map |
| ManagedRam.ManagedMap.DetachAt | src/rtcr/online_storage/ram_dataspace_info.h:219-243 | detaching by address removes this tile's attachment and no neighbour's, so all flags stay right |
| ManagedRam.ManagedMap.FindIndexByAddr | src/rtcr/online_storage/ram_dataspace_info.h:166-172 | the loop stops where the recursive search does |
| ManagedRam.ManagedMap.MarkAttach | src/rtcr/checkpointer.cc:142-167 | afterwards every tile is attached and the marks are the badges of the tiles that were not |
| ManagedRam.ManagedMap.DetachUnmark | src/rtcr/checkpointer.cc:170-195 | exactly the marked tiles are detached |
| ManagedRam.MarkedIffDetached | src/rtcr/checkpointer.cc:152-163 | a badge is marked if and only if it belongs to a detached tile |
| ManagedRam.MarkUnmarkNeutral | src/rtcr/checkpointer.cc:142-195 | marking and then unmarking restores every flag, and in between every tile is attached, so the read cannot fault |
| ManagedRam.ManagedMap.DetachAll | src/rtcr/checkpointer.cc:1265-1270 | every tile ends up detached and nothing stays in the real region map |
| RamSession.Counter.GetId | src/rtcr/online_storage/info_structs.h:28-32 | every timestamp is larger than all before |
| RamSession.Session.FindFaulting | src/rtcr/intercept/ram_session.cc:12-35 | in a session that manages its dataspaces the search ends at the first faulting one |
| RamSession.Session.HandlePageFault | src/rtcr/intercept/ram_session.cc:38-70 | on the objects, a call does what the abstract pager does, and every flag still agrees with its region map |
| RamSession.Session.HandleSignal | src/rtcr/intercept/ram_session.cc:81-89 | a signal standing for n faults is n calls |
| RamSession.Session.Alloc | src/rtcr/intercept/ram_session.cc:175-303 | succeeds if and only if the quota of the parent suffices, for the whole pages if the session has a granularity, and says what is left of the quota in either case; then a new dataspace stands in front of the list with the next timestamp, managed exactly if there is a granularity, its tiles partitioning it; otherwise the list is unchanged; the list stays ordered by age with bootstrapped entries last |
| RamSession.Session.FillManaged | src/rtcr/intercept/ram_session.cc:188-271 | the two loops build exactly the tiles of the partition, attached, and give up if and only if the parent's quota does not suffice for all of them |
| RamSession.Session.AddWholeTiles | src/rtcr/intercept/ram_session.cc:219-243 | the first loop gives up if and only if the quota does not suffice for its n tiles; the tiles made by then are not given back |
| RamSession.Session.Free | src/rtcr/intercept/ram_session.cc:306-327 | the first entry with the badge leaves the list, an unknown badge changes nothing |
| RamSession.Session.DetachTilesOf | src/rtcr/checkpointer.cc:1263-1271 | the tiles of one dataspace are detached, all other dataspaces keep theirs |
| MemoryPlan.AllJobsHas | src/rtcr/checkpointer.cc:1187-1202 | the unresolved list has exactly one entry for every known copy, over its whole size |
| MemoryPlan.ResolvePlanned | src/rtcr/checkpointer.cc:1205-1250 | after the resolution the list holds exactly one entry for every unmanaged dataspace and for every tile picked of a managed one, at the tile's place in the copy |
| MemoryPlan.ResolveHas | src/rtcr/checkpointer.cc:1205-1250 | for any list with one entry per dataspace, in any order and with entries of other dataspaces: managed ones are replaced by entries of their picked tiles, the others stay |
| MemoryPlan.ResolveSame | src/rtcr/checkpointer.cc:1229-1237 | with no attached tile behind a first one, the shipped resolution is the intended one |
| Incremental.NextKeeps | src/rtcr/checkpointer.cc:1369-1467 | every step of child, pager and checkpoint keeps the invariant: a detached tile is one whose place in the copy holds its content |
| Incremental.WriteKeeps | src/rtcr/intercept/ram_session.cc:38-70 | a write of the running child reaches an attached tile only, so every detached tile stays equal to its copy |
| Incremental.DetachKeeps | src/rtcr/checkpointer.cc:1253-1276 | detaching all tiles loses nothing: what was attached is on the list of copies to make |
| Incremental.UnmarkKeeps | src/rtcr/checkpointer.cc:170-195 | only tiles that were detached before the read are detached after it |
| Incremental.ResolveIntendedKeeps | src/rtcr/checkpointer.cc:1205-1250 | the intended resolution enters every tile that may differ from its copy |
| Incremental.CopyInBounds | src/rtcr/checkpointer.cc:1334-1348 | every copy made stays inside both dataspaces |
| Incremental.CopyCleans | src/rtcr/checkpointer.cc:1315-1348 | copying one tile makes it equal to its place in the copy and leaves every equal tile equal |
| Incremental.RunKeeps | src/rtcr/checkpointer.cc:1369-1467 | the invariant holds in every state of every run |
| Incremental.CheckpointIsFull | src/rtcr/checkpointer.cc:1369-1467 | in every run each completed checkpoint leaves every live dataspace with a copy that holds, byte by byte, its current content |
| IncrementalProgress.CheckpointCompletes | src/rtcr/checkpointer.cc:1434-1455 | from every prepared state that keeps the invariant the remaining phases can be carried out to the end; every copy due can be made |
| IncrementalProgress.CheckpointPossible | src/rtcr/checkpointer.cc:1369-1455 | from every running state that keeps the invariant and has memory a whole checkpoint can be carried out, with some table that has copies of new dataspaces; `ReconciledCompletes` says it of the table the reconciliation makes |
| IncrementalProgress.RunFromNothing | src/rtcr/checkpointer.cc:1369-1455 | there is a run from the empty state to a completed checkpoint of a managed dataspace |
| IncrementalShipped.ShippedCompleteIff | src/rtcr/checkpointer.cc:1229-1237 | the shipped checkpoint is complete for every content the child can have if and only if no managed dataspace has an attached tile behind its first one |
| IncrementalShipped.TwoFreshTilesLost | src/rtcr/checkpointer.cc:1229-1237 | a fresh dataspace of two tiles loses the content of the lower one |
| IncrementalShipped.CompleteIfSameResolution | src/rtcr/checkpointer.cc:1187-1348 | a checkpoint whose resolution misses nothing leaves every tile equal to its place in the copy |
| CheckpointMemory.CreateMemoryToCheckpoint | src/rtcr/checkpointer.cc:1187-1202 | the loop over the table objects yields the plan's unresolved list |
| CheckpointMemory.ResolveDataspace | src/rtcr/checkpointer.cc:1216-1242 | the entry of a managed dataspace is replaced as the shipped resolution says |
| CheckpointMemory.ResolveIncCheckpointDataspaces | src/rtcr/checkpointer.cc:1205-1250 | the nested loops over sessions and dataspaces yield the shipped resolution of the whole list and change no dataspace |
| CheckpointMemory.DetachDesignatedDataspaces | src/rtcr/checkpointer.cc:1253-1276 | all tiles of all sessions are detached, everything else stays |
| CheckpointMemory.CopyContent | src/rtcr/checkpointer.cc:1334-1348 | the slice of the copy becomes the slice of the original; no other byte of any dataspace changes |
| CheckpointMemory.CheckpointDataspaces | src/rtcr/checkpointer.cc:1315-1331 | the loop performs all copies of the list in order |
| CheckpointMemory.CheckpointMemory | src/rtcr/checkpointer.cc:1434-1455 | the memory phases as one call, for a table with entries of RAM dataspaces and of any other attached ones: on the objects the shipped checkpoint of the model happens, and all tiles end up detached |
| CopyTable.AddRefExact | src/rtcr/checkpointer.cc:568-587 | taking a reference keeps all counts exact and every other copy where it was |
| CopyTable.DropRefExact | src/rtcr/checkpointer.cc:598-613 | releasing a reference keeps all counts exact, removes the entry with the last one and keeps every other copy |
| CopyTable.RemoveEntryKeepsOrder | src/rtcr/checkpointer.cc:598-613 | the entry removed is the first one of the badge; the others stay in their order |
| CopyRegistry.CopyDataspaces.Acquire | src/rtcr/checkpointer.cc:568-587 | on the list of counted entries: one reference more, a new copy only if there was none, and the copy returned is the one the table names |
| CopyRegistry.CopyDataspaces.AcquireUnless | src/rtcr/checkpointer.cc:393-421 | the same, but a region map's dataspace without an entry gets none |
| CopyRegistry.CopyDataspaces.Release | src/rtcr/checkpointer.cc:598-613 | one reference less, the entry gone with the last one, nothing if there is no entry |
| CopyRegistry.CopyDataspaces.FindByBadge | src/rtcr/util/orig_copy_count_info.h:33-39 | the first entry of the badge, which is the one counting and removal by badge work on |
| Reconcile.UpsertExact | src/rtcr/checkpointer.cc:522-542 | one turn of the first loop keeps the copy table exact, whatever kind of record it handles |
| Reconcile.PrepareExact | src/rtcr/checkpointer.cc:515-563 | a whole two-pass reconciliation keeps the table exact and leaves the copies of all other records alone |
| Reconcile.DestroyAllExact | src/rtcr/checkpointer.cc:262-272 | destroying a record releases exactly the references of everything it owns |
| Reconcile.Pass1KeepsOrder | src/rtcr/checkpointer.cc:522-542 | the first loop leaves every record in its place, counted from the end; new ones stand in front |
| Reconcile.Pass2KeepsOrder | src/rtcr/checkpointer.cc:544-563 | the second loop keeps exactly the records of live objects, in their order |
| ReconcileKeys.PrepareReconciles | src/rtcr/checkpointer.cc:212-261 | after the two passes the stored badges are the live ones, every live object has an up-to-date record, and a surviving record keeps its immutable fields |
| ReconcileKeys.RecordIsCurrent | src/rtcr/checkpointer.cc:212-261 | in a reconciled list the record found for a live object is the current one |
| ReconcileKeys.PrepareIdempotent | src/rtcr/checkpointer.cc:212-261 | reconciling again with the same live list changes neither records nor table |
| StoredRegions.RegionsMirroredIff | src/rtcr/checkpointer.cc:342-388 | the stored regions describe the map exactly after a pass if and only if no new region is shadowed by a neighbour's end, no stale record is kept by one and no address was reused |
| StoredRegions.UpperNeighbourLost | src/rtcr/offline_storage/stored_attached_region_info.h:44-50 | of two adjacent regions the upper one is never stored |
| StoredState.SessionsByBadge | src/rtcr/checkpointer.cc:212-339 | sessions are matched by badge and updated by reconciling what they own, at every level |
| StoredStateMirror.CheckpointMirrors | src/rtcr/checkpointer.cc:1411-1417 | one checkpoint makes the stored sessions, dataspaces, region maps and attachments describe the child at every nesting level, unless an address lookup is misled |
| MirrorsExactly.CheckpointMirrorsIff | src/rtcr/checkpointer.cc:1411-1417 | for any stored state without double records: it does so if and only if no object recorded earlier is another one now and no address lookup in any region map is misled |
| ReconcileKeys.PrepareReconcilesIff | src/rtcr/checkpointer.cc:212-261 | the two passes bring every record up to date if and only if an update does so for the record of every live object |
| StoredStateMirror.CheckpointIdempotent | src/rtcr/checkpointer.cc:1411-1417 | a checkpoint of an unchanged child leaves the stored state and the table as they are |
| StoredStateRefs.CheckpointConsistent | src/rtcr/checkpointer.cc:1411-1417 | one checkpoint keeps every count equal to the number of records with that badge and every record naming the table's copy |
| StoredStateRefs.RefCountsExact | src/rtcr/checkpointer.cc:389-616 | over any sequence of checkpoints counts are exact, never underflow, and an entry exists exactly while a record refers to it |
| StoredKcaps.CheckpointKcaps | src/rtcr/checkpointer.cc:198-209 | every record that a checkpoint leaves, of a RAM dataspace, a region, a region map or a session, was there before, unchanged but for a fault handler, or has been made by it; then its selector is one that the capability map just scanned has for the badge of the recorded object itself, or 0 if it has none, and a session has the arguments of the live one |
| StoredKcaps.KcapsEverRight | src/rtcr/checkpointer.cc:198-209 | after any sequence of checkpoints every record at every level has a selector that was right for its badge when one of them scanned the capability map |
| StoredStateRuns.SharedCopyIff | src/rtcr/checkpointer.cc:389-425 | after any sequence of checkpoints two records share a copy if and only if they are records of the same dataspace |
| StoredStateRuns.RamAlwaysMirrors | src/rtcr/checkpointer.cc:451-563 | after any sequence of checkpoints the RAM records describe the last child state |
| StoredStateRuns.CopyNeverReplaced | src/rtcr/checkpointer.cc:515-563 | while a RAM dataspace stays allocated its record and its copy are never replaced |
| StoredStateRuns.MoveKeepsCopy | src/rtcr/checkpointer.cc:342-388 | creating before deleting keeps the copy when all attachments of a dataspace move within one map |
| ClosedSessions.DestroyRegionsExactIff | src/rtcr/checkpointer.cc:426-449 | destroying a list of region records releases exactly the references they hold if and only if no other record holds one to a dataspace that one of them shows without a copy |
| ClosedSessions.PrepareRegionsExactIff | src/rtcr/checkpointer.cc:342-388 | whatever region maps there are and have been, also when an RM session was closed while its map was attached: reconciling the regions of a map keeps all counts exact if and only if no record left holds a reference to a dataspace that a record without a copy shows whose region is gone |
| ClosedSessions.ClosedSessionLosesCopy | src/rtcr/checkpointer.cc:342-449 | three checkpoints after which a region's record names a copy that the table has no entry for |
| StoredStateRuns.MoveToAnotherMapReplacesCopy | src/rtcr/checkpointer.cc:275-328 | a dataspace that moves to a map further back in the list loses its copy and gets a new one |
| CopyMoves.CopyKeptIff | src/rtcr/checkpointer.cc:1411-1417 | over a whole checkpoint a dataspace keeps its copy if and only if the table has an entry for it after every object handled on the way |
| MapMoves.MoveKeepsCopyIff | src/rtcr/checkpointer.cc:275-328 | told from the lists alone: moving between region maps keeps the copy if and only if after each map in processing order some record of the dataspace exists, in a map handled, in one not yet handled, or elsewhere |
| SessionMoves.CheckpointKeepsCopyIff | src/rtcr/checkpointer.cc:1411-1417 | told from the lists of all sessions: a dataspace that is recorded before a checkpoint and saved by it keeps its copy if and only if after every RAM session, every PD and RM session and every region map within one, in processing order, it is shown by what has been handled or recorded by what has not |
| SessionMoves.EntryAllAlongIff | src/rtcr/checkpointer.cc:1411-1417 | every table met during a checkpoint has an entry for a dataspace if and only if it is held in this way |
| StoredStateRuns.FirstReverses | src/rtcr/checkpointer.cc:515-563 | a list seen for the first time is stored in reverse order |
| StoredStateRuns.FirstCheckpointFits | src/rtcr/restorer.cc:363-379 | the state made by the first checkpoint of a child has its bootstrapped entries in front, so the restorer's arrays are filled in bounds |
| StoredStateRuns.LaterAllocationOverruns | src/rtcr/restorer.cc:366-371 | after a second checkpoint of a child that has allocated one dataspace in between, they are filled in bounds if and only if the child had no bootstrapped dataspace |
| StoredBadges.EntryIffSaved | src/rtcr/checkpointer.cc:389-616 | after a checkpoint the copy table has an entry for exactly the RAM dataspaces and the other attached dataspaces that are no region map |
| PrepareStep.CheckpointPrepares | src/rtcr/checkpointer.cc:1409-1417 | the reconciliation of a consistent stored state is the preparation step of the incremental checkpoint: every dataspace to be saved has a copy of its own, that of a RAM dataspace as large as it, that of another one as large as the region it was made for, and no managed one has lost its copy |
| SavedRecords.CheckpointRecords | src/rtcr/checkpointer.cc:1409-1417 | every record it leaves, of a RAM dataspace or of a region that shows no region map, names the copy of its dataspace, whatever the order of the records |
| SavedRecords.StoredRecordsLast | src/rtcr/checkpointer.cc:1434-1455 | in every run this is still so when the checkpoint is finished |
| SavedRecords.ReconciledCompletes | src/rtcr/checkpointer.cc:1409-1455 | from the reconciled state the checkpoint can be brought to its end |
| SavedRecords.RunStores | src/rtcr/checkpointer.cc:1409-1455 | every run that has come to the reconciliation can be carried on to a finished checkpoint that has stored its result |
| Checkpointer.Checkpointer.CreateStoredRamDataspace | src/rtcr/checkpointer.cc:564-593 | the record made names the copy the table then has, with one reference more, and has the selector of the dataspace (`CheckpointKcaps`) |
| Checkpointer.Checkpointer.PrepareRamDataspaces | src/rtcr/checkpointer.cc:515-563 | the two while loops compute the reconciliation of RAM dataspaces and its effect on the table |
| Checkpointer.Checkpointer.PrepareRamSessions | src/rtcr/checkpointer.cc:451-501 | the same one level up |
| Checkpointer.Checkpointer.CreateStoredAttachedRegion | src/rtcr/checkpointer.cc:389-425 | the record of a region names a copy unless it shows a region map |
| Checkpointer.Checkpointer.PrepareAttachedRegions | src/rtcr/checkpointer.cc:342-388 | the loops compute the reconciliation of attached regions, lookups by closed interval |
| Checkpointer.Checkpointer.PrepareRegionMaps | src/rtcr/checkpointer.cc:275-328 | the loops compute the reconciliation of region maps; noting their dataspaces again adds none |
| Checkpointer.Checkpointer.DestroyStoredRegionMaps | src/rtcr/checkpointer.cc:266-270 | the references of all regions of all maps are released |
| Checkpointer.Checkpointer.PrepareRmSessions | src/rtcr/checkpointer.cc:212-261 | the loops compute the reconciliation of RM sessions |
| Checkpointer.Checkpointer.PreparePdSessions | src/rtcr/checkpointer.cc:748-816 | the same for PD sessions with their three region maps, destroyed last to first |
| Checkpointer.Checkpointer.NoteSessionMaps | src/rtcr/checkpointer.cc:1136-1184 | the badges noted are those of the dataspaces of all region maps of the sessions |
| Checkpointer.Checkpointer.PrepareState | src/rtcr/checkpointer.cc:1396-1417 | noting the region maps and reconciling RAM, PD and RM sessions, in this order and through one table, is the reconciliation of the whole stored state |
| RegionMirror.RegionMapComponent.Attach | src/rtcr/intercept/region_map_component.cc:46-109 | the record made equals the attachment, page-rounded, and the records stay equal to the attachments |
| RegionMirror.RegionMapComponent.Detach | src/rtcr/intercept/region_map_component.cc:112-136 | the first record whose region covers the address or ends there is removed and the others stay in their order; the records stay equal to the attachments if and only if no region that ends at the address is found first |
| RegionMirror.ActualSize | src/rtcr/intercept/region_map_component.cc:78-88 | the recorded size is the smallest positive number of whole pages that holds the size asked for, or the rest of the dataspace if that is zero |
| RegionMirror.DetachMirrorsIff | src/rtcr/online_storage/attached_region_info.h:69-75 | for all lists and addresses: detaching keeps records and attachments equal if and only if no region ending at the address is in front |
| RegionMirror.AscendingIsSafe | src/rtcr/online_storage/attached_region_info.h:69-75 | regions attached in ascending order can always be detached correctly |
| RegionMirror.RunMirrorsIff | src/rtcr/intercept/region_map_component.cc:46-136 | in any run of attaches and detaches the records are the attachments all the time if and only if no detach meets a region that ends at its address in front |
| RegionMirror.AscendingRunMirrors | src/rtcr/intercept/region_map_component.cc:46-136 | this is so in every run in which each attach is above everything attached then and each detach is of an address in some region; the records stay in descending order |
| RegionMirror.LowerNeighbourForgotten | src/rtcr/online_storage/attached_region_info.h:69-75 | detaching the upper of two adjacent regions removes the record of the lower one |
| Translation.TranslateIs | src/rtcr/util/ckpt_resto_badge_info.h:33-39 | in a faithful translation the first match is the only one: a badge is translated to an object exactly if the pair was entered |
| Translation.TranslateOneToOne | src/rtcr/util/ckpt_resto_badge_info.h:33-39 | two translated badges lead to the same object only if they are equal |
| Restorer.Restorer.IdentifyBootstrapped | src/rtcr/restorer.cc:276-282 | gets through if and only if the matcher stays inside its arrays; then the pairs relate bootstrapped stored and live dataspaces one to one, and there are none exactly if no stored one is bootstrapped |
| Restorer.Restorer.IdentifyRecreateRamDataspaces | src/rtcr/restorer.cc:270-327 | for any lists of distinct dataspaces: succeeds if and only if a stored dataspace is bootstrapped and the matcher stays inside its arrays; then each is translated to its match by age or to a new dataspace of its size, one to one |
| Restorer.Restorer.IdentifyRecreateSignalSources | src/rtcr/restorer.cc:136-178 | succeeds if and only if the session has a source; then each stored one is translated to it or to a new one |
| Restorer.Restorer.IdentifyRecreateSignalContexts | src/rtcr/restorer.cc:181-218 | gets through if and only if every context's source is translated by then; each context is made for the source that stands for its own |
| Restorer.Restorer.IdentifyRecreatePdSession | src/rtcr/restorer.cc:108-128 | sources before contexts: exactly when it gets through, and that everything the session owns is translated, three region maps and their dataspaces included |
| Restorer.Restorer.IdentifyRecreatePdSessions | src/rtcr/restorer.cc:68-133 | gets through if and only if every stored session is bootstrapped and can be handled |
| Restorer.Restorer.IdentifyRecreateRamSessions | src/rtcr/restorer.cc:221-267 | gets through if and only if every stored session is bootstrapped and its dataspaces can be identified or recreated |
| Restorer.Restorer.IdentifyRecreateCpuThreads | src/rtcr/restorer.cc:451-511 | gets through if and only if every bootstrapped thread has a live one of its name and every other a translated PD session; recreated threads may share a name |
| Restorer.Restorer.IdentifyRecreateCpuSessions | src/rtcr/restorer.cc:399-448 | the same for all CPU sessions, with every thread translated to an object of its own; a recreated session is entered under the selector of its record and has its creation arguments |
| Restorer.Restorer.IdentifyRecreateRegionMaps | src/rtcr/restorer.cc:549-583 | every stored region map and its dataspace are translated to a new map of the stored size |
| Restorer.Restorer.IdentifyRecreateRmSessions | src/rtcr/restorer.cc:514-546 | always gets through, with every session and map translated |
| Restorer.Restorer.IdentifyRecreate | src/rtcr/restorer.cc:1410-1422 | for states of any checkpoint: the phases succeed if and only if the state is restorable, which includes that the matcher stays inside its arrays; then the translation is one to one and covers exactly the stored badges, each stored object has its object in the child, and the capability list has got exactly the entries of the recreated objects |
| RestoreState.CapabilityListExact | src/rtcr/restorer.cc:68-583 | the list the restorer leaves, entry by entry: one for each object that bootstrapping does not make, in the order in which they were recreated, with the selector of its record and the badge of the object that stands for it |
| RestoreState.CapabilityListHas | src/rtcr/restorer.cc:68-583 | an entry is in that list if and only if it is such an entry of a RAM dataspace, signal source, signal context, CPU session, thread, RM session or region map that was recreated |
| AnyCheckpoint.AnyCheckpointRestorable | src/rtcr/restorer.cc:329-396 | after any sequence of checkpoints, whatever was allocated and freed in between: with the intended fill the RAM dataspaces can be identified if and only if the predecessor had a bootstrapped one and the fresh child has at least as many |
| AnyCheckpoint.LaterStateNotRestorable | src/rtcr/restorer.cc:366-371 | with the shipped fill no state can be restored that was stored after a child with a bootstrapped dataspace allocated one between two checkpoints |
| RestoreExample.PredecessorRestorable | src/rtcr/restorer.cc:1410-1422 | a fresh child and a stored state with two threads of one name, a signal context, a region map and an attached region that meet all of this |
| RestoreRegions.FindsWhatStands | src/rtcr/restorer.h:127-141 | the lookup through the translation finds an object exactly if it stands for the record |
| RestoreSessions.MemoryCollector.RestoreStateRamDataspaces | src/rtcr/restorer.cc:714-739 | succeeds if and only if every stored dataspace is found again; then one entry is made for each |
| RestoreSessions.MemoryCollector.RestoreStateAttachedRegions | src/rtcr/restorer.cc:926-1004 | gets through if and only if every bootstrapped region is found and every other one's dataspace is known; then exactly the latter are attached, in order, and each new copy is entered once |
| RestoreSessions.MemoryCollector.IdentifyOrAttach | src/rtcr/restorer.cc:936-982 | what the lookup after the attachment returns is the region just attached |
| RestoreRegions.AttachmentsRestored | src/rtcr/restorer.cc:926-1004 | all attachments of the map are then the stored ones in address, size, offset and executable flag, with dataspaces renamed: none missing, none added |
| RestoreRegions.ReattachedInOrder | src/rtcr/restorer.cc:971-982 | of two records that are attached again the later one stands in front, where lookups meet it first |
| RestoreSessions.WalkDone | src/rtcr/restorer.cc:880-923 | a loop of lookups and restores, for any kind of record: it gets through if and only if every record can be restored into the object that stands for it; then each of these objects is restored once and no other changes |
| RestoreSessions.MemoryCollector.FindContext | src/rtcr/restorer.cc:898-916 | the signal context of a fault handler is found if and only if some PD session has the one that stands for it |
| RestoreSessions.MemoryCollector.RestoreStateRegionMap | src/rtcr/restorer.cc:896-919 | one region map: its fault handler and its attachments, and the memory its regions want restored |
| RestoreSessions.MemoryCollector.RestoreStateRegionMaps | src/rtcr/restorer.cc:880-923 | the loop over region maps is such a loop |
| RestoreSessions.MemoryCollector.RestoreStateRmSessions | src/rtcr/restorer.cc:853-877 | so is the one over RM sessions |
| RestoreSessions.MemoryCollector.RestoreStatePdSessions | src/rtcr/restorer.cc:652-685 | so is the one over PD sessions, each with its three region maps |
| RestoreSessions.MemoryCollector.RestoreStateRamSessions | src/rtcr/restorer.cc:688-711 | the loop over RAM sessions gets through if and only if each session and each of its dataspaces is found again |
| RestoreSessions.MemoryCollector.CreateRegionMapDataspaces | src/rtcr/restorer.cc:30-65 | the badges noted are those of the dataspaces of all stored region maps |
| RestoreSessions.MemoryCollector.RestoreState | src/rtcr/restorer.cc:1450-1458 | RAM, PD and RM sessions one after the other |
| RestoredState.RamFound | src/rtcr/restorer.cc:688-739 | after the first half of a restore every stored RAM dataspace is found again |
| RestoredState.AfterIdentifyRecreate | src/rtcr/restorer.cc:652-923 | after the first half of a restore every lookup of the second half finds the object made or identified for the record; the second half gets through if and only if every fault handler is a context of the child and every attachment can be made or found, and then every region map has become the stored one |
| RestoredState.RestoreObjects | src/rtcr/restorer.cc:1396-1458 | both halves as one call: exactly when it gets through, and the child and the list of memory to restore it comes to |
| RestoredState.EveryMapRestored | src/rtcr/restorer.cc:652-1004 | every region map of the child, of its PD session or recreated, then has exactly the stored attachments, with dataspaces renamed, and if the stored one has a fault handler, the context that stands for it |
| RestoreMemory.RegionJobsOnce | src/rtcr/restorer.cc:984-1000 | every copy is entered at most once |
| RestoreMemory.RegionJobsComplete | src/rtcr/restorer.cc:984-1000 | every copy of a region that does not show a region map is entered |
| RestoreMemory.RegionJobsFrom | src/rtcr/restorer.cc:984-1000 | nothing else is entered |
| RestoreMemory.ReattachedEntry | src/rtcr/restorer.cc:971-998 | a re-attached region is entered for the dataspace that stands for its own |
| RestoreMemory.BootstrappedEntryIff | src/rtcr/restorer.cc:937-948 | a bootstrapped region is entered for the dataspace that stands for its own if and only if no region that shows another one and ends at its address is in front |
| RestoreMemory.UpperRegionMisplaced | src/rtcr/restorer.cc:937-948 | of two adjacent bootstrapped regions the upper one's content is entered for the lower one's dataspace |
| RestoreMemory.RestoreAllDone | src/rtcr/restorer.cc:1338-1354 | in the intended direction every dataspace entered ends up with its copy's content, whatever the order, and nothing else changes |
| RestoreMemory.PickedRestored | src/rtcr/restorer.cc:1076-1121 | in the intended direction every tile the resolution picks is restored, whichever other entries there are |
| RestoreMemory.ShippedRestoresAllIff | src/rtcr/restorer.cc:1101 | in the intended direction the shipped resolution restores every content of a fresh child if and only if no managed dataspace has a second tile |
| RestoreMemory.LowerTileNotRestored | src/rtcr/restorer.cc:1101 | of a managed dataspace of two pages the lower one is not restored |
| RestoreMemory.RestoreReproduces | src/rtcr/restorer.cc:1483-1505 | in a fresh child, whose tiles are all attached, every byte of every dataspace with an entry is that of its copy, for any list with one entry per dataspace |
| RestoreMemory.RestoreDataspaces | src/rtcr/restorer.cc:1338-1371 | the shipped loop writes copies only; no dataspace of the child changes |
| RestoreMemory.ShippedRestoresNothing | src/rtcr/restorer.cc:1367 | the same for any list of entries |
| RestoreMemory.ShippedRightIff | src/rtcr/restorer.cc:1357-1371 | the shipped restore, with either resolution, reproduces a tile if and only if it was right before |
| RestoreList.JobsEntered | src/rtcr/restorer.cc:714-1004 | exactly what the list of memory to restore holds: an entry for every recorded RAM dataspace, over its size, and one for every recorded dataspace of unknown origin, over the size of its first record, each from its copy to the dataspace that stands for it; each copy and each dataspace is entered once |
| RestoreList.EnteredRight | src/rtcr/restorer.cc:936-998 | when no lookup is misled, each region is entered for the dataspace that stands for its own |
| RoundTrip.RunSaves | src/rtcr/checkpointer.cc:1369-1467 | in every run, when a checkpoint is finished, each dataspace has a copy of its own with its content |
| RoundTrip.RoomForAll | src/rtcr/restorer.cc:1357-1371 | if all regions fit, every entry of the list can be copied inside both buffers |
| RoundTrip.RoundTrip | src/rtcr/restorer.cc:1387-1505 | after any run of the checkpointed child, with the state its last checkpoint stored and the list the restorer collects from it, if the regions of dataspaces of unknown origin fit: every entry can be copied, and the restored child finds in every RAM dataspace, and in whatever a region of another dataspace shows, the bytes its predecessor found there when the checkpoint completed, and in the array of its capability map what the restorer has patched into the copy |
| RoundTripIff.RoundTripIff | src/rtcr/restorer.cc:984-1000 | after any such run and restore: all entries can be copied and everything is reproduced, whatever the contents, if and only if every region of a dataspace of unknown origin ends within the size its copy was made for and within the size of the dataspace's first record |
| TwoRegions.TwoRegionsFitIff | src/rtcr/checkpointer.cc:389-425 | a first checkpoint of two regions of one such dataspace: they fit if and only if each ends, with its offset, within the size of either |
| TwoRegions.LargerRegionLost | src/rtcr/checkpointer.cc:409 | regions of one and of two pages do not fit, in either order |
| RoundTripExample.RoundTripHappens | src/rtcr/restorer.cc:1387-1505 | a run, a restore and contents of the fresh child for which everything that `RoundTrip` asks for is true, with a dataspace of unknown origin |

## Left out

- Stored records and the monitor's info objects of the reconciliation and of the restorer are values in sequences that the methods reassign; list nodes shared by pointer, and their deletion, are not captured. The RAM session, its tiles, the region map monitor, the copy table and all byte buffers are objects updated in place.
- The classes of the sources are spread over modules: `Checkpointer` over `Checkpointer` and `CheckpointMemory`, `Restorer` over `Restorer`, `MemoryCollector`, `RestoreMemory` and `CapMapSplice`; `restore()` and `checkpoint()` as one call each are not modelled.
- CapMapSplice.RestoreCapMapAt: takes the addresses of the allocator and the region as given; finding the region by its address is the lookup of `RegionMirror`.
- Restorer::_resolve_inc_checkpoint_dataspaces (src/rtcr/restorer.cc:1076-1121) is the text of the checkpointer's resolution and has no second method; `Resolve` specifies both.
- RestoreMemory.RestoreReproduces: states the intended resolution and copy direction; that the shipped ones do not meet it is what `ShippedRestoresAllIff` and `ShippedRightIff` say.
- RoundTrip.RoundTrip: states the intended resolution and copy direction, for a restore in which no address lookup is misled (`BootstrappedEntryIff` says when one is) and the fresh child has the bootstrapped attachments of its predecessor. States whose bootstrapped dataspaces do not come first are restored with the intended fill only (`LaterStateNotRestorable`). Whether all contents are reproduced without its condition on regions is answered by `RoundTripIff`: they are not.
- PrepareStep.CheckpointPrepares: assumes that no address lookup is misled (`CheckpointMirrorsIff` says when one is) and that the parent grants the memory for new copies. What is saved of a dataspace of unknown origin is by definition what its copy was made for; `RoundTripIff` says when that is enough.
- Incremental.CheckpointIsFull: takes the reconciliation as a step; `CheckpointPrepares` proves that the real one is such a step. Of a dataspace of unknown origin it covers what its copy was made for. Sizes of copies are taken as asked for.
- ClosedSessions.PrepareRegionsExactIff: for one region map; over whole checkpoints exact counts are proved for `Admissible` children only.
- RamSession.Session.Alloc: requires a granularity whose 32-bit tile size is not zero, since the original divides by it, and a bootstrap flag that once cleared stays cleared (src/rtcr/target_child.cc:488-492).
- RamSession.Session.Free: releasing the tiles and the fault handler is not modelled beyond the removal of the entry.
- Restorer.Restorer.IdentifyRecreate: LOG and Timer sessions, recreated last by the same pattern, are left out, as are native capabilities; exhausted quotas of the parent while recreating are not modelled.
- RestoreSessions.MemoryCollector.RestoreState: the states of CPU sessions, threads, LOG and Timer sessions (src/rtcr/restorer.cc:742-850, 1007-1073) and quota upgrades are left out. Attach conflicts in a real region map are not modelled.
- RamIdentify.IdentifyRamDataspaces: badges and timestamps of one list are taken to be distinct, as the counter and the parent make them.
- Checkpointer.Checkpointer.PreparePdSessions: native capabilities, signal sources and signal contexts of the session are left out.
- Checkpointer.Checkpointer.PrepareState: the CPU, LOG and Timer sessions reconciled in between and afterwards are left out.
- Reconciling CPU sessions and threads, LOG and Timer sessions, native capabilities, signal sources and contexts: the same two passes, with fields copied from one record to another.
- Badges have 16 bits and copy dataspaces are found by badge; the model's badges are unbounded and never reused. Reference counts are unbounded.
- Remote procedure calls, session arguments and upgrades, ROM sessions, installing capabilities in the kernel, `Cap_index_allocator_tpl` and pausing threads: interfaces to code that is not part of the sources.
- Printing, verbose logging, run scripts and test programs.
