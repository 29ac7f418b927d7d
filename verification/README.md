# Verified model of the stratisd storage engine

A Dafny model of four linked parts of the Stratis storage engine, with their properties proved
for every input, every run or every reachable state.

**Space allocation.** `RangeAlloc` and `Allocator` are the sorted interval map of one device and its
allocator; `BlockDevs` the block device manager with first fit over many devices; `Linear` the
linear devicemapper tables and the coalescing of segments; `Tiers` the data and the cache tier;
`Backstore` the cap device with its halving request loop; `BackstoreRuns` whole runs and
`BackstoreFailures` runs whose devicemapper steps fail at will. The central idea
is one list of sectors: in every state of every run, the mapped sectors followed by the free sectors
*are* the usable sectors of the devices in device order. That the logical to physical map is
injective, bounded, clear of metadata and only ever grows follows from it.

**Metadata store.** `Sizes` and `Mda` are the layout, header codec, load and save on a device of bytes;
`MdaDevice` the same as code that seeks, reads and writes; `MdaRuns` runs of saves, and saves torn at any
byte; `PoolMetadata` a pool that saves to some of its devices under an arbitrary clock, restarts, and
recovers by largest time; `PoolCrash` recovery after a pool save was cut off,
and `PoolCrashRuns` runs in which saves, cut off saves and restarts alternate. The checksum is an arbitrary function; the results about torn saves name the
collisions they exclude.

**Device discovery.** `DeviceInfo`, `Engine`, `LiminalRuns`, `EngineObjects`, `Startup` and `Table` are the sets of devices in
limbo, the engine's table of pools, and arbitrary streams of udev events and pool operations.

**Save and restore.** `Save` and `Restore` record a backstore and rebuild it from the devices found;
`CheckMetadata` is the consistency check made before a pool is set up. `Rollback` is the loop that applies
an operation to every device and undoes it if it fails on one. `PoolLife` joins the parts: what a run hands out
passes the check, and when a restart gives back the backstore of the latest save.

Objects whose methods update fields are classes, each method proved against a function of the old
state; the properties are lemmas about those functions. `Prelude` holds shared types. `Sectors` is the
64-bit range: what is stored in it is proved to fit, and `SumsFit` bounds the sums that an insertion only
compares. Calls into the devicemapper and the outcome
of opening, reading or starting things are parameters that succeed or fail at will.

`dafny verify dfyconfig.toml` checks the project.

## Where the code differs from what it says

- `remove_blockdevs` is documented to do nothing on error, but removals made before the failing uuid stay
  (`src/engine/strat_engine/backstore/blockdevmgr.rs:227-256`): `FailedRemovalLosesDevice` is a case and `FailedRemovalKeepsIff` the
  exact condition. The cache tier, its only caller, never meets it (`RemoveAppended`).
- `older` is documented as returning the first region on a tie; between two written regions with equal times the code returns
  index 1 (`src/engine/strat_engine/metadata/mda.rs:234-244`): `TieGoesToSecond` is a case, `OlderDocumentedIff` the exact condition,
  and in runs no tie arises (`NoTieInRuns`). The same holds of `newer`.
- That nothing was written is documented as a time of zero in the header; the code looks at the length of the data
  (`src/engine/strat_engine/metadata/mda.rs:323-345`), as `FromBufExact` states.
- Saving empty data is accepted but a reload then finds the version before it (`EmptyDataIsLost`); an accepted save is read back
  exactly when its data is not empty (`ReadBackIff`).
- A save cut off between header and data on a single device makes recovery of the whole pool fail (`OneBrokenDevice`), because
  recovery looks only at devices with the largest time; `CrashRecovery` gives the exact outcome.
- At the start, names are checked against an empty table, so pools with equal names displace one another
  (`EqualNamesDisplace`), and exactly then (`StartKeepsAllIff`).
- The subtraction in the loop of `request` is safe in runs whose devicemapper steps succeed (`HalveNoSlack`), but not with
  slack: `SlackExact` gives the exact condition and `UnderflowReached` gets there on a pool of one device of 1 GiB.
- The assertion that `next` is within the cap device, called essential, fails after an `init_cache` that fails in the devicemapper
  (`src/engine/strat_engine/backstore/backstore.rs:230-236`): `CapDeviceLost` is a case, `LosingIsSoundIff` and `TrialSound` the exact condition. It is the only
  failure that does this, and nothing mapped moves otherwise (`FailuresMoveNothing`). A restart undoes it if and only if exactly the
  recorded devices are found (`RestartUndoesLoss`); the devices of the failed cache, which carry the uuid of the pool and are never
  recorded or wiped, prevent that (`CacheDevicesBlock`, `LostPoolStaysDown`).
- A device added to a pool whose metadata is not saved afterwards prevents the pool from being set up again
  (`src/engine/strat_engine/pool.rs:492-503`): `JoinedDeviceBlocks` shows the run, `RestartGivesBack` the exact condition.
- A save that fails after writing a header, followed by a successful save under a clock that went back, makes recovery give
  the failed save or nothing (`FailedSaveWins`). Device failures that leave the device unchanged never do (`RunRecovers`).

## Model

| member | source | states |
|---|---|---|
| `RangeAlloc.Canonical` | src/engine/strat_engine/backstore/range_alloc.rs:20-25 | Two well-formed maps of ranges that hold the same sectors are the same map |
| `RangeAlloc.RefusedOverlaps` | src/engine/strat_engine/backstore/range_alloc.rs:97-167 | An insertion is refused exactly when the range leaves the limit or a sector of it is used |
| `RangeAlloc.RefusedWhy` | src/engine/strat_engine/backstore/range_alloc.rs:97-167 | The reason given for a refused insertion: a sum too big, beyond the limit, its first sector used, or a later one |
| `RangeAlloc.SumsFit` | src/engine/strat_engine/backstore/range_alloc.rs:97-167 | Once the checked addition has passed, every other sum that the insertion forms is within the limit |
| `RangeAlloc.SplicedWf` | src/engine/strat_engine/backstore/range_alloc.rs:20-25 | What an accepted insertion leaves has no empty, contiguous, overlapping or out of limit range |
| `RangeAlloc.SplicedAdds` | src/engine/strat_engine/backstore/range_alloc.rs:173-209 | What an accepted insertion leaves holds exactly the old sectors and those of the range |
| `RangeAlloc.UsedPlusAvailable` | src/engine/strat_engine/backstore/range_alloc.rs:344-351 | Used and available sectors always add up to the limit |
| `RangeAlloc.RangesAreUsed` | src/engine/strat_engine/backstore/range_alloc.rs:61-65 | Iterating the map visits exactly the used sectors in ascending order |
| `Allocator.PerDevSegments.LocatePrevAndNext` | src/engine/strat_engine/backstore/range_alloc.rs:70-84 | Finds the greatest key at or below and the least key at or above the value; both are missing only in an empty map |
| `Allocator.PerDevSegments.Insert` | src/engine/strat_engine/backstore/range_alloc.rs:173-209 | Succeeds exactly on in-limit ranges without a used sector, is set union then, changes nothing otherwise, and keeps the four invariants |
| `Allocator.PerDevSegments.InsertAll` | src/engine/strat_engine/backstore/range_alloc.rs:215-226 | Succeeds exactly when all ranges can go in together; adds all of them or none |
| `Allocator.PerDevSegments.Union` | src/engine/strat_engine/backstore/range_alloc.rs:230-256 | Succeeds exactly on disjoint operands with equal limits and is set union then |
| `Allocator.PerDevSegments.Complement` | src/engine/strat_engine/backstore/range_alloc.rs:260-279 | Holds exactly the sectors below the limit that are not used |
| `Allocator.FreeMap` | src/engine/strat_engine/backstore/range_alloc.rs:260-279 | One pass over the ranges yields the well-formed map of the gaps |
| `Allocator.ComplementTwice` | src/engine/strat_engine/backstore/range_alloc.rs:260-279 | The complement of the complement is the original map |
| `Allocator.RangeAllocator.Request` | src/engine/strat_engine/backstore/range_alloc.rs:368-388 | Takes exactly the lowest min(amount, available) free sectors; the fallible insertions inside cannot fail |
| `Allocator.RangeAllocator.RequestAll` | src/engine/strat_engine/backstore/range_alloc.rs:355-364 | Takes every free sector and leaves none |
| `Allocator.TakeLowest` | src/engine/strat_engine/backstore/range_alloc.rs:368-388 | The loop over the gaps collects the first min(amount, available) free sectors |
| `Allocator.TakenUnique` | src/engine/strat_engine/backstore/range_alloc.rs:355-388 | Requests for amounts that take equally many sectors have equal results and equal effects |
| `Allocator.RequestAvailable` | src/engine/strat_engine/backstore/range_alloc.rs:344-388 | Requesting what is available has the result and the effect of requesting everything |
| `BlockDevs.RequestSpace` | src/engine/strat_engine/backstore/blockdev.rs:186-188 | A device gives up its lowest free sectors, as many as asked for or all it has |
| `BlockDevs.NewBlockDev` | src/engine/strat_engine/backstore/blockdev.rs:98-119 | Setting a device up fails exactly when its metadata region and its segments overlap or leave the device; otherwise they are its used sectors |
| `BlockDevs.BlockDevMgr.AllocSpace` | src/engine/strat_engine/backstore/blockdevmgr.rs:263-297 | Succeeds exactly when free space covers the total; list i has sizes[i] sectors, the lists take consecutive stretches off the front of the free list, every sector in them was free and is not any more, none occurs twice, and on failure nothing changes |
| `BlockDevs.FreeListIsFree` | src/engine/strat_engine/backstore/blockdev.rs:198-200 | The free list holds exactly the unused sectors of the devices |
| `BlockDevs.FreeListNoDup` | src/engine/strat_engine/backstore/blockdevmgr.rs:263-297 | No sector is on the free list twice, so allocated segments are pairwise disjoint |
| `BlockDevs.FirstFit` | src/engine/strat_engine/backstore/blockdevmgr.rs:270-294 | The scan over the devices always ends with the amount needed, taken from the front of the free list |
| `BlockDevs.FirstFitOrder` | src/engine/strat_engine/backstore/blockdevmgr.rs:263-297 | After any allocation, a device with room left means that no later device was touched |
| `BlockDevs.BlockDevMgr.RemoveBlockdevs` | src/engine/strat_engine/backstore/blockdevmgr.rs:234-256 | Removes by swapping with the last, never looks at index 0, stops at the first uuid not found with earlier removals kept, and reports a failure to wipe |
| `BlockDevs.RemovalExact` | src/engine/strat_engine/backstore/blockdevmgr.rs:234-256 | Removal succeeds exactly on distinct uuids of devices other than the first |
| `BlockDevs.FailedRemovalKeepsIff` | src/engine/strat_engine/backstore/blockdevmgr.rs:227-256 | A removal that fails leaves the list alone if and only if its first uuid is not that of a device after the first |
| `BlockDevs.FailedRemovalLosesDevice` | src/engine/strat_engine/backstore/blockdevmgr.rs:227-256 | Three devices of which one is gone after a removal that fails |
| `BlockDevs.RemoveAppended` | src/engine/strat_engine/backstore/blockdevmgr.rs:234-256 | Removing devices just appended, in any order of uuids, restores the list, order included |
| `BlockDevs.UsableLength` | src/engine/strat_engine/backstore/blockdevmgr.rs:364-385 | The usable sectors number the total size less the metadata size |
| `BlockDevs.UsableInjective` | src/engine/strat_engine/backstore/blockdevmgr.rs:263-297 | No physical sector appears twice among the usable sectors of well-formed devices |
| `Linear.MapToDm` | src/engine/strat_engine/backstore/blockdevmgr.rs:94-115 | The table maps logical sector x to the x-th sector of the segments and maps nothing else |
| `Linear.TableFromMaps` | src/engine/strat_engine/backstore/blockdevmgr.rs:94-115 | A table from any offset on maps a sector exactly as the list of segments says, in both directions |
| `Linear.CoalescePhys` | src/engine/strat_engine/backstore/shared.rs:60-91 | Coalescing two lists denotes the sectors of the first followed by those of the second |
| `Linear.CoalesceOn` | src/engine/strat_engine/backstore/shared.rs:60-91 | Coalesced segments lie on devices the way the originals did, and merging cannot overflow |
| `Linear.CoalesceApart` | src/engine/strat_engine/backstore/shared.rs:60-91 | Coalescing leaves adjacent segments in the result if and only if one of the lists had some: where the lists meet they are merged |
| `Tiers.DataTier.Alloc` | src/engine/strat_engine/backstore/data_tier.rs:76-91 | Succeeds exactly when there is enough free space, appends exactly the front of the free list to the mapped sectors, and keeps mapped + free = usable |
| `Tiers.DataTier.Add` | src/engine/strat_engine/backstore/data_tier.rs:69-71 | Appends the devices, or changes nothing if they cannot be initialized, and keeps mapped + free = usable |
| `Tiers.TierAllocKeeps` | src/engine/strat_engine/backstore/data_tier.rs:76-91 | An allocation moves sectors from free to mapped and changes nothing about which sectors are usable |
| `Tiers.AddKeeps` | src/engine/strat_engine/backstore/data_tier.rs:69-71 | New devices add their usable sectors at the end of the free list |
| `Tiers.CacheTier.New` | src/engine/strat_engine/backstore/cache_tier.rs:143-176 | Fails exactly when the cache sub-device would be too big; otherwise metadata and cache segments together use up every usable sector |
| `Tiers.CacheTier.Add` | src/engine/strat_engine/backstore/cache_tier.rs:98-135 | Accepts exactly when the cache sub-device stays within its maximum and then gives it all the new sectors; on rejection devices, their order and the segments are as before |
| `Backstore.Backstore.ExtendCapDevice` | src/engine/strat_engine/backstore/backstore.rs:316-342 | Sets the table of all data tier segments for the cap device, cached or not, or makes the device; a device that cannot be resumed keeps the table, one that cannot be made does not exist |
| `Backstore.Backstore.Alloc` | src/engine/strat_engine/backstore/backstore.rs:358-390 | Result and new state for every size list and every outcome of the devicemapper: no space, failure after the tier grew with the table set or not, or chunks of the sizes asked for that follow one another from the old `next` to the new one |
| `Backstore.AllocExact` | src/engine/strat_engine/backstore/backstore.rs:358-390 | When an allocation finds no space, fails in the devicemapper or succeeds, by what is left and what is free, and the chunks that it returns |
| `Backstore.ChunksExact` | src/engine/strat_engine/backstore/backstore.rs:373-389 | Chunks have exactly the sizes asked for and follow one another without a gap from `next` |
| `Backstore.FillIsChunks` | src/engine/strat_engine/backstore/backstore.rs:373-389 | There is only one list of chunks of these sizes without a gap |
| `Backstore.Backstore.TakeChunks` | src/engine/strat_engine/backstore/backstore.rs:373-389 | Hands out consecutive chunks of the sizes asked for and advances `next` by their total |
| `Backstore.Backstore.Request` | src/engine/strat_engine/backstore/backstore.rs:406-442 | Result and new state of a request for every request, modulus and outcome of the devicemapper, a subtraction below zero included |
| `Backstore.Backstore.HalvingLoop` | src/engine/strat_engine/backstore/backstore.rs:420-427 | The loop terminates, and ends with the largest halving of the request that fits, or with none, or underflows; the tier grows only in the first case |
| `Backstore.HalfUnits` | src/engine/strat_engine/backstore/backstore.rs:423-427 | Halving and rounding down to the modulus halves the number of units, so the loop shrinks |
| `Backstore.Backstore.AddDatadevs` | src/engine/strat_engine/backstore/backstore.rs:305-311 | Only the list of data devices grows, and nothing changes if the new ones cannot be initialized |
| `Backstore.Backstore.InitCache` | src/engine/strat_engine/backstore/backstore.rs:207-255 | Succeeds exactly when there are devices, the cache is not too big and the devicemapper succeeds; the cap device becomes the origin, and a failing devicemapper costs the linear device |
| `Backstore.Backstore.AddCachedevs` | src/engine/strat_engine/backstore/backstore.rs:269-301 | Rejected for size without any change, otherwise the cache table covers all the new sectors |
| `BackstoreRuns.NoSlack` | src/engine/strat_engine/backstore/backstore.rs:510-538 | Under the run invariant the size of the cap device equals `next` |
| `BackstoreRuns.InitInv` | src/engine/strat_engine/backstore/backstore.rs:177-197 | A freshly initialized backstore satisfies the run invariant |
| `BackstoreRuns.StepKeepsInv` | src/engine/strat_engine/backstore/backstore.rs:305-442 | Every step of alloc, request, add_datadevs, init_cache and add_cachedevs keeps the invariant and only appends to the mapped sectors |
| `BackstoreRuns.RunKeepsInv` | src/engine/strat_engine/backstore/backstore.rs:305-442 | In every run the invariant holds at every point, and mapped sectors at any earlier point are a prefix of those at any later point |
| `BackstoreRuns.CapMapping` | src/engine/strat_engine/backstore/backstore.rs:316-342 | The cap device maps exactly the sectors handed out, sector x to the x-th usable sector |
| `BackstoreRuns.CapMapIsSafe` | src/engine/strat_engine/backstore/blockdevmgr.rs:94-115 | The map is injective, stays within each device and never touches a metadata region |
| `BackstoreRuns.MappedSectorsNeverMove` | src/engine/strat_engine/backstore/backstore.rs:344-390 | In every run, a mapped logical sector stays mapped to the same physical sector |
| `BackstoreRuns.AvailableInBackstore` | src/engine/strat_engine/backstore/backstore.rs:521-538 | The subtraction does not underflow and gives exactly the free space of the devices |
| `BackstoreRuns.HalveNoSlack` | src/engine/strat_engine/backstore/backstore.rs:420-427 | Without slack the loop cannot underflow, finds nothing exactly when a unit does not fit, and otherwise misses at most a factor of two and a unit |
| `BackstoreRuns.RequestExact` | src/engine/strat_engine/backstore/backstore.rs:406-442 | Nothing is granted exactly when request < m or free < m; otherwise the length is a positive multiple of m, at most the request, and is the request rounded down or satisfies free < 2*length + m |
| `BackstoreRuns.AllocInRun` | src/engine/strat_engine/backstore/backstore.rs:358-390 | In a run `alloc` takes a step of the run, fails exactly when free space does not cover the total, and else returns chunks that fill the cap device from the old `next` to the new one |
| `BackstoreRuns.RequestInRun` | src/engine/strat_engine/backstore/backstore.rs:406-442 | In a run `request` takes a step of the run and never underflows |
| `BackstoreRuns.AddDatadevsInRun` | src/engine/strat_engine/backstore/backstore.rs:305-311 | In a run `add_datadevs` takes a step of the run, or changes nothing |
| `BackstoreRuns.InitCacheInRun` | src/engine/strat_engine/backstore/backstore.rs:207-255 | In a run `init_cache` takes a step of the run and creates a cache tier exactly when it succeeds |
| `BackstoreRuns.AddCachedevsInRun` | src/engine/strat_engine/backstore/backstore.rs:269-301 | In a run `add_cachedevs` takes a step of the run, or changes nothing |
| `BackstoreFailures.InvIsSound` | src/engine/strat_engine/backstore/backstore.rs:348-349 | A state of a run without failures is a sound state |
| `BackstoreFailures.InitLive` | src/engine/strat_engine/backstore/backstore.rs:177-197 | A freshly initialized backstore is sound, and has no cap device before something is handed out |
| `BackstoreFailures.AllocTrySound` | src/engine/strat_engine/backstore/backstore.rs:344-390 | `alloc` keeps `next` within the cap device and the cap table a prefix of the mapped sectors, however the devicemapper step ends |
| `BackstoreFailures.RequestTrySound` | src/engine/strat_engine/backstore/backstore.rs:398-442 | `request` keeps the same, for every request and modulus, however the devicemapper step ends |
| `BackstoreFailures.TrySound` | src/engine/strat_engine/backstore/backstore.rs:207-442 | Every operation keeps a sound state sound and only appends to the mapped sectors and to the cap device, except an `init_cache` that fails in the devicemapper |
| `BackstoreFailures.LosingIsSoundIff` | src/engine/strat_engine/backstore/backstore.rs:230-236 | An `init_cache` that fails in the devicemapper leaves a sound state, and one that passes the assertion on `next`, if and only if nothing had been handed out; the cap device is always gone |
| `BackstoreFailures.LostStaysLost` | src/engine/strat_engine/backstore/backstore.rs:526-538 | Without its cap device a backstore can take new data devices, which does not bring it back; calls that return before they need the cap device change nothing; every other call fails an assertion |
| `BackstoreFailures.TrialSound` | src/engine/strat_engine/backstore/backstore.rs:207-442 | In every run whose devicemapper steps fail at will, the state is sound if and only if no earlier `init_cache` that had devices for a cache of allowed size failed in the devicemapper, and lost for good otherwise |
| `BackstoreFailures.TrialGrows` | src/engine/strat_engine/backstore/backstore.rs:207-442 | As long as it is not lost, the cap device and what it maps only grow |
| `BackstoreFailures.SoundMapIsSafe` | src/engine/strat_engine/backstore/backstore.rs:316-342 | Whatever failed before, the map of the cap device is injective, in bounds and clear of metadata |
| `BackstoreFailures.FailuresMoveNothing` | src/engine/strat_engine/backstore/backstore.rs:316-342 | In every run a mapped logical sector stays mapped to the same physical sector if and only if the cap device is not lost |
| `BackstoreFailures.AllocTried` | src/engine/strat_engine/backstore/backstore.rs:358-390 | `alloc` makes exactly such an attempt in any sound state, and the chunks it returns fill the cap device from the old `next` to the new one |
| `BackstoreFailures.RequestTried` | src/engine/strat_engine/backstore/backstore.rs:406-442 | `request` makes exactly such an attempt in any sound state |
| `BackstoreFailures.InitCacheTried` | src/engine/strat_engine/backstore/backstore.rs:207-255 | `init_cache` makes exactly such an attempt in any sound state, and gives up the linear device exactly if there are devices and the cache is not too big |
| `BackstoreFailures.CapDeviceLost` | src/engine/strat_engine/backstore/backstore.rs:207-255 | A new pool on a device of 1 GiB loses its cap device to a cache that cannot be made |
| `BackstoreFailures.FailedResumeLeavesSlack` | src/engine/strat_engine/backstore/backstore.rs:320-331 | An allocation that sets the table and cannot resume the device leaves its total as slack at once, and the run invariant is lost |
| `BackstoreFailures.FailedResumeOfRequest` | src/engine/strat_engine/backstore/backstore.rs:320-331 | A request that sets the table and cannot resume the device leaves what it took as slack at once |
| `BackstoreFailures.FailedAllocLeavesSlack` | src/engine/strat_engine/backstore/backstore.rs:358-390 | An allocation whose table is not set leaves exactly its total as slack once another allocation is served, and the run invariant is lost |
| `BackstoreFailures.FailedRequestLeavesSlack` | src/engine/strat_engine/backstore/backstore.rs:420-437 | What a request whose table is not set and a later one that is served leave of cap device, `next` and free space |
| `BackstoreFailures.SlackExact` | src/engine/strat_engine/backstore/backstore.rs:420-427 | With slack a and free space f, no request that 64 bits can hold makes the subtraction go below zero if and only if a + f < m or a <= ((a + f) / m + 1) / 2 * m |
| `BackstoreFailures.HalveExact` | src/engine/strat_engine/backstore/backstore.rs:420-427 | The loop stops at the first half of the request that there is, or that is less than the slack, or at nothing; all amounts before it were more than there is |
| `BackstoreFailures.RequestOutcome` | src/engine/strat_engine/backstore/backstore.rs:406-442 | The outcome of a request in every state with or without slack: the slack if that is enough, else the greatest multiple of the modulus that the extended cap device has, up to the request, with exactly what was missing taken from the tier |
| `BackstoreFailures.UnderflowReached` | src/engine/strat_engine/backstore/backstore.rs:406-442 | A new pool on a device of 1 GiB, a request whose devicemapper step fails, one that succeeds and one that ends in the subtraction going below zero |
| `Sizes.RegionFits` | src/engine/strat_engine/metadata/sizes.rs:82-165 | A region is the smallest that holds header and data, never smaller than the minimum, and the size conversions invert one another |
| `Mda.LeRoundTrip` | src/engine/strat_engine/metadata/mda.rs:372-392 | Little endian encoding of a number that fits is undone by decoding |
| `Mda.LeDigit` | src/engine/strat_engine/metadata/mda.rs:372-392 | Byte i of an encoded number is its digit i to the base 256 |
| `Mda.HeaderRoundTrip` | src/engine/strat_engine/metadata/mda.rs:323-392 | A written header parses back to itself, except that one for no data reads as nothing written |
| `Mda.HeaderLayout` | src/engine/strat_engine/metadata/mda.rs:372-392 | Where each field of a header is, its checksum over all that follows it |
| `Mda.FromBufExact` | src/engine/strat_engine/metadata/mda.rs:323-368 | What any 32 bytes are read as: an error unless checksum and versions are right, nothing if no data is recorded, and a header exactly if the bytes are its own |
| `Mda.OlderDocumentedIff` | src/engine/strat_engine/metadata/mda.rs:234-253 | The older and the newer region are the documented ones if and only if the regions are not both written at the same time |
| `Mda.TieGoesToSecond` | src/engine/strat_engine/metadata/mda.rs:234-253 | In a tie the second region counts as the older and the first as the newer, against the documentation |
| `MdaRuns.NoTieInRuns` | src/engine/strat_engine/metadata/mda.rs:234-253 | In a state of a run there is no tie, so the regions are the documented ones |
| `Mda.RegionsApart` | src/engine/strat_engine/metadata/mda.rs:54-56 | The byte ranges of different regions do not overlap |
| `Mda.RegionsTile` | src/engine/strat_engine/metadata/mda.rs:54-56 | The regions follow one another without a gap from the end of the static header, each its header and room for the most data it takes |
| `MdaDevice.ToBuf` | src/engine/strat_engine/metadata/mda.rs:372-392 | Filling the buffer field by field, checksum last, gives the laid out header |
| `MdaDevice.MdaRegions.Initialize` | src/engine/strat_engine/metadata/mda.rs:68-86 | Writes the empty header to one region after the other, up to the first write that fails; on success every region holds it |
| `MdaDevice.InitTornExact` | src/engine/strat_engine/metadata/mda.rs:68-86 | What an initialization that is cut off leaves of each region |
| `MdaDevice.MdaRegions.SaveState` | src/engine/strat_engine/metadata/mda.rs:146-201 | Rejects older or equal times and oversized data without writing; otherwise writes the older region and then its backup, and changes memory only if both writes succeed |
| `MdaDevice.MdaRegions.ReadState` | src/engine/strat_engine/metadata/mda.rs:207-232 | Reads the newer region, its backup copy if the first fails |
| `MdaDevice.LoadRegions` | src/engine/strat_engine/metadata/mda.rs:99-137 | Loads both headers from the bytes, each from its backup copy if the first is invalid; fails if and only if one of them has no valid copy |
| `MdaRuns.SaveKeepsGood` | src/engine/strat_engine/metadata/mda.rs:146-201 | A completed save leaves memory and all four copies in agreement, with the saved version the latest and the other version intact |
| `MdaRuns.InitGood` | src/engine/strat_engine/metadata/mda.rs:68-86 | After initialization memory and device agree that nothing was written |
| `MdaRuns.GoodReload` | src/engine/strat_engine/metadata/mda.rs:99-137 | When memory and device agree, reloading gives the headers in memory and reading gives the latest version and its time |
| `MdaRuns.RunIsGood` | src/engine/strat_engine/metadata/mda.rs:146-201 | After any run of accepted and rejected saves memory and device agree and the latest version is the last accepted one |
| `MdaRuns.ReloadAfterRun` | src/engine/strat_engine/metadata/mda.rs:99-253 | After any run of saves of non-empty data, reloading from bytes returns exactly the last accepted data and time |
| `MdaRuns.EmptyDataIsLost` | src/engine/strat_engine/metadata/mda.rs:323-325 | Saving no data is accepted but blanks the older region, and a reload finds the previous data and time, or nothing if there was none |
| `MdaRuns.ReadBackIff` | src/engine/strat_engine/metadata/mda.rs:146-201 | An accepted save is what a reload reads, data and time, if and only if its data is not empty |
| `MdaRuns.CutOffInFirstCopy` | src/engine/strat_engine/metadata/mda.rs:179-200 | After a save torn anywhere in its first copy a reload gives the previous data and time unless the whole new header is there; if it is, the new data if either copy has all of it, and an error otherwise |
| `MdaRuns.CutOffInSecondCopy` | src/engine/strat_engine/metadata/mda.rs:179-200 | A save torn anywhere in its second copy gives the new data and time after reload |
| `MdaRuns.CutOffInMemory` | src/engine/strat_engine/metadata/mda.rs:207-232 | However a save is torn, the struct in memory still reads the previous data |
| `PoolMetadata.Stamp` | src/engine/strat_engine/backstore/blockdevmgr.rs:306-316 | The stamp is the clock reading if that is after the last update, and else the earliest time after the last update; there is none if and only if the clock is not ahead and the last update is at the end of time |
| `PoolMetadata.SaveToChosen` | src/engine/strat_engine/backstore/blockdevmgr.rs:318-331 | Exactly the selected devices that open are written, and success means that one of them took the data |
| `PoolMetadata.MetadataMgr.SaveState` | src/engine/strat_engine/backstore/blockdevmgr.rs:306-339 | The stamp of every outcome: the clock overflows exactly at the end of time, a successful save moves the last update to its stamp, and nothing else moves it |
| `PoolMetadata.NoDeviceRejects` | src/engine/strat_engine/metadata/mda.rs:156-158 | A device rejects a stamp later than the last successful save exactly if it has no room for the data |
| `PoolMetadata.SaveKeepsInv` | src/engine/strat_engine/backstore/blockdevmgr.rs:306-339 | A pool save keeps: every device intact, none ahead of the last successful save, some device holding it |
| `PoolMetadata.RecoveryIsExact` | src/engine/strat_engine/liminal/setup.rs:87-134 | Recovery gives the last successful save in any device order, an error if no holder of it can be read, and never an older save |
| `PoolMetadata.RunKeepsInv` | src/engine/strat_engine/backstore/blockdevmgr.rs:306-339 | In every run of saves, restarts and added devices the pool invariant holds |
| `PoolMetadata.StampIsLater` | src/engine/strat_engine/backstore/blockdevmgr.rs:306-316 | In every run a successful save becomes the latest with a later time, and nothing else changes the latest |
| `PoolMetadata.StampsIncrease` | src/engine/strat_engine/backstore/blockdevmgr.rs:306-316 | In every run any two successful saves have strictly increasing stamps, restarts in between included |
| `PoolMetadata.RunNeverRejects` | src/engine/strat_engine/metadata/mda.rs:156-158 | In every run no selected device rejects a save as overwriting newer data |
| `PoolMetadata.SaveSucceedsIff` | src/engine/strat_engine/backstore/blockdevmgr.rs:306-339 | In every run a save succeeds if and only if some selected device can be opened, however the clock went, and is then the latest save under the time that the clock and the save before it demand |
| `PoolMetadata.RestartUpIff` | src/engine/strat_engine/liminal/setup.rs:87-134 | In every run a restart sets the pool up if and only if a device with the latest save can be read, and then knows its time |
| `PoolMetadata.RunRecovers` | src/engine/strat_engine/liminal/setup.rs:87-134 | At any point of any run, recovery over all devices returns the last successful save |
| `PoolCrash.CrashedDevShows` | src/engine/strat_engine/metadata/mda.rs:179-200 | What a reload of one device shows after a save cut off anywhere: the save before, the save, or its time without its data |
| `PoolCrash.CrashRecovery` | src/engine/strat_engine/liminal/setup.rs:87-134 | Recovery after a pool save was cut off on any of the devices: what was saved before if the save shows nowhere, otherwise the save if a device that has all of it can be read, and an error if not |
| `PoolCrash.OneBrokenDevice` | src/engine/strat_engine/liminal/setup.rs:87-134 | One device cut off between header and data makes recovery fail, although the save before is intact on the others |
| `PoolCrash.HeaderOnlyIsBroken` | src/engine/strat_engine/metadata/mda.rs:179-200 | A save cut off right after its header, over other data, is such a device |
| `PoolCrashRuns.GoodIsSane` | src/engine/strat_engine/metadata/mda.rs:99-137 | An intact device satisfies the invariant that devices keep when saves are cut off |
| `PoolCrashRuns.LeavesAny` | src/engine/strat_engine/metadata/mda.rs:146-201 | A save to a device that was cut off before, complete or cut off again, leaves a device that cannot be loaded, or one that keeps the invariant and shows the save before, the save, or its time without its data |
| `PoolCrashRuns.UnloadableIff` | src/engine/strat_engine/metadata/mda.rs:99-137 | A save makes a device unloadable if and only if it is cut off with neither the old nor the new header in the first copy and the backup of that header was bad already |
| `PoolCrashRuns.FailedSaveWins` | src/engine/strat_engine/backstore/blockdevmgr.rs:306-339 | After a save that failed half way and one that succeeded, recovery gives the one with the later time if the first shows on a device that the second did not overwrite; with equal times either, by the order of the devices |
| `PoolCrashRuns.RecoveryIsLatest` | src/engine/strat_engine/liminal/setup.rs:87-134 | Whatever was cut off before, recovery gives the latest save that shows if a device that holds it can be read, an error if not, and nothing else |
| `PoolCrashRuns.HappeningKeeps` | src/engine/strat_engine/backstore/blockdevmgr.rs:306-339 | Saves, saves cut off and followed by a restart, restarts and new devices keep the pool invariant as long as every device can be loaded, and the latest save that shows never goes back |
| `PoolCrashRuns.LifeKeepsInv` | src/engine/strat_engine/backstore/blockdevmgr.rs:306-339 | The pool invariant holds at every point of every such run |
| `PoolCrashRuns.LifeRecovers` | src/engine/strat_engine/liminal/setup.rs:87-134 | At any point of any such run recovery gives the latest save that shows, whole, or an error: never a mixture, never an older save |
| `PoolCrashRuns.LifeSaveSucceedsIff` | src/engine/strat_engine/backstore/blockdevmgr.rs:306-339 | In every such run a save that is not cut off succeeds if and only if some selected device can be opened, whatever was cut off before |
| `PoolCrashRuns.LifeUpIff` | src/engine/strat_engine/liminal/setup.rs:87-134 | After a restart, and after a save that was cut off, the pool is up if and only if a device with the latest save that shows can be read |
| `PoolCrashRuns.LifeJoins` | src/engine/strat_engine/backstore/blockdevmgr.rs:188-222 | A device that joins is one more device of the pool, loads, and holds nothing yet |
| `PoolCrashRuns.LifeNeverGoesBack` | src/engine/strat_engine/backstore/blockdevmgr.rs:306-316 | In every such run the time of the latest save that shows never decreases |
| `DeviceInfo.Update` | src/engine/strat_engine/liminal/device_info.rs:258-312 | What is combined stays about the same device, so the identity assertions never fail |
| `DeviceInfo.UpdateExact` | src/engine/strat_engine/liminal/device_info.rs:258-312 | A report contradicts what is known exactly if it gives the layer it is about another number or another encryption, and otherwise replaces that layer only |
| `DeviceInfo.ProcessAddWf` | src/engine/strat_engine/liminal/device_info.rs:344-351 | Adding keeps every info filed under its identifiers and all encryption infos equal |
| `DeviceInfo.ProcessRemoveWf` | src/engine/strat_engine/liminal/device_info.rs:460-471 | Removing keeps every info filed under its identifiers and all encryption infos equal |
| `DeviceInfo.RemoveUndoesAdd` | src/engine/strat_engine/liminal/device_info.rs:211-253 | Exactly when removing a device right after adding it restores the set |
| `DeviceInfo.RemoveExact` | src/engine/strat_engine/liminal/device_info.rs:211-253 | A remove report of another kind or device number than what the set shows for the device changes nothing; one that matches takes off exactly that layer, and touches no other device |
| `DeviceInfo.RetractSummarizes` | src/engine/strat_engine/liminal/device_info.rs:460-471 | A remove report on the set of some reports gives the set of these reports without those of the layer it takes off |
| `DeviceInfo.AnyEncryptionDecides` | src/engine/strat_engine/liminal/device_info.rs:405-410 | Looking at any one encryption info of a set decides whether a new one clashes |
| `DeviceInfo.CollectAll` | src/engine/strat_engine/liminal/liminal.rs:197-204 | Collecting any list of infos of one pool succeeds exactly when no two of them conflict, and then each device shows what the list says of it |
| `DeviceInfo.CollectBag` | src/engine/strat_engine/liminal/liminal.rs:197-204 | Reports that conflict end in a bag with all of them: what those before the conflict say of each device, and every other one as it is |
| `DeviceInfo.OrderDoesNotMatter` | src/engine/strat_engine/liminal/liminal.rs:197-204 | When infos of the same kind and device agree, order and repetition do not matter |
| `DeviceInfo.DeviceSet.ProcessInfoAdd` | src/engine/strat_engine/liminal/device_info.rs:476-525 | Adds, or on a contradiction drains the whole set and the new info into the bag |
| `DeviceInfo.DeviceSet.ProcessInfoRemove` | src/engine/strat_engine/liminal/device_info.rs:460-471 | Removes what the info says went away and nothing else; an info of another kind or number than the set shows changes nothing |
| `Table.InsertedInverse` | src/engine/structures.rs:254-299 | Insertion keeps the name map and the uuid map inverse to one another |
| `Table.RemovedInverse` | src/engine/structures.rs:243-248 | Removal keeps the two maps inverse to one another |
| `Table.DisplacedAndKept` | src/engine/structures.rs:254-299 | Displaced and kept items are exactly the old items, each on one side, and the new item is there |
| `Table.RemoveInsert` | src/engine/structures.rs:236-299 | Removing an item and inserting it again restores the table and displaces nothing |
| `Table.Table.Insert` | src/engine/structures.rs:254-299 | The four branches give the table with exactly the displaced items replaced; the assertions inside never fail |
| `Table.Table.RemoveByUuid` | src/engine/structures.rs:243-248 | Returns what the lookup finds and removes exactly that |
| `Table.Table.RemoveByName` | src/engine/structures.rs:236-240 | Returns what the lookup finds and removes exactly that |
| `Table.Table.GetByName` | src/engine/structures.rs:204-208 | Looking up by the uuid found gives the same result, and nothing is found only if no item has the name |
| `Table.Table.GetByUuid` | src/engine/structures.rs:211-215 | Finds the item and the name that points back to it |
| `Engine.SetupPool` | src/engine/strat_engine/liminal/liminal.rs:280-287 | A pool comes up exactly under a name that no active pool has and if it can be started; it is hopeless only if set up says so, and a name in use is no such case |
| `Engine.EvaluateUp` | src/engine/strat_engine/liminal/liminal.rs:376-455 | A pool that comes up has a fresh name and uuid and is in neither of the limbo maps |
| `Engine.EvaluateKeeps` | src/engine/strat_engine/liminal/liminal.rs:376-455 | An event keeps every stored info filed where it belongs and each uuid in at most one limbo map |
| `Engine.StepKeepsInv` | src/engine/strat_engine/engine.rs:156-248 | Every event and pool operation keeps: each pool uuid in at most one of active, errored and hopeless |
| `Engine.RunKeepsInv` | src/engine/strat_engine/engine.rs:156-248 | The invariant holds at every point of every stream of events and operations |
| `Engine.PoolsStay` | src/engine/strat_engine/engine.rs:156-248 | No step displaces an active pool: it goes only by its own destruction, and is renamed only by its own renaming |
| `Engine.TableExact` | src/engine/strat_engine/engine.rs:156-248 | The whole table after each operation: a pool is created exactly under a free name, destroyed exactly if it has no filesystems, renamed exactly to a free name, and nothing else changes |
| `LiminalRuns.EventExact` | src/engine/strat_engine/liminal/liminal.rs:376-455 | Where an event leaves a pool that is not up, and what is kept of its devices: hopeless on a conflict, errored with what was heard while some device is locked, up, hopeless or errored as set up goes |
| `LiminalRuns.HopelessExact` | src/engine/strat_engine/liminal/liminal.rs:395-439 | An event of a pool without hope puts its own report into the bag or takes exactly that out |
| `LiminalRuns.OnePlace` | src/engine/strat_engine/liminal/liminal.rs:376-455 | After an event of a pool that was not up it is in exactly one of active, errored and hopeless |
| `LiminalRuns.OthersKept` | src/engine/strat_engine/liminal/liminal.rs:376-455 | What is not an event of a pool leaves its devices in limbo as they are |
| `LiminalRuns.StreamExact` | src/engine/strat_engine/liminal/liminal.rs:376-455 | After any stream of events and operations, a pool that never came up and is not hopeless is kept with exactly what the reports that stand say of each device |
| `LiminalRuns.HopelessStays` | src/engine/strat_engine/liminal/liminal.rs:395-439 | Once there is no hope for a pool there is none for the rest of the stream |
| `LiminalRuns.BagExact` | src/engine/strat_engine/liminal/liminal.rs:395-439 | At any later point of any stream the bag holds exactly what it held or was put in and was not taken out since |
| `EngineObjects.LiminalDevices.TrySetupPool` | src/engine/strat_engine/liminal/liminal.rs:227-368 | Its assertions are preconditions that every caller meets; the pool comes up exactly if no device is locked and it can be started under a free name, and else all its devices are filed, as hopeless exactly if set up says so |
| `EngineObjects.LiminalDevices.BlockEvaluate` | src/engine/strat_engine/liminal/liminal.rs:376-455 | The effect of an add, change, remove or other event on the devices in limbo |
| `EngineObjects.StratEngine.HandleEvent` | src/engine/strat_engine/engine.rs:156-169 | Inserts a pool that came up, and leaves every other as it was |
| `EngineObjects.StratEngine.CreatePool` | src/engine/strat_engine/engine.rs:171-201 | Creates the pool exactly if the name is unused and the devices can be initialized, under its name and uuid, and leaves every other as it was; an existing name is no error if the devices are the same |
| `EngineObjects.StratEngine.DestroyPool` | src/engine/strat_engine/engine.rs:203-223 | Deletes the pool exactly if it is there, has no filesystems and can be destroyed, and leaves every other as it was; otherwise the table is as before |
| `EngineObjects.StratEngine.RenamePool` | src/engine/strat_engine/engine.rs:225-248 | Renames the pool exactly if it is there, the new name is free and can be written, and leaves every other as it was; otherwise the table is as before |
| `Startup.CollectDevices` | src/engine/strat_engine/liminal/liminal.rs:185-204 | The draining loop stops at the first contradiction with everything in the bag, or collects all |
| `Startup.StartAllKeeps` | src/engine/strat_engine/liminal/liminal.rs:162-214 | After the start each pool uuid is in at most one place, filed as it should be |
| `Startup.StartAllExact` | src/engine/strat_engine/liminal/liminal.rs:162-214 | Every pool uuid found is left by the start in exactly one place, up, errored or hopeless, with all that was found of its devices |
| `Startup.StartedWaits` | src/engine/strat_engine/engine.rs:64-80 | A pool left errored by the start waits with all that was found, so that every stream of events can follow |
| `Startup.SetupPools` | src/engine/strat_engine/liminal/liminal.rs:162-214 | The start visits every pool uuid found, each with its own infos, and returns the pools that came up |
| `Startup.StartKeepsAllIff` | src/engine/strat_engine/engine.rs:69-71 | Every pool that came up at the start stays in the table if and only if their names differ |
| `Startup.EqualNamesDisplace` | src/engine/strat_engine/engine.rs:69-71 | Two pools of one name that both come up at the start and are not both in the table |
| `Startup.Initialize` | src/engine/strat_engine/engine.rs:64-80 | Whatever was found, the engine starts in a state that satisfies its invariant |
| `Save.SegmentTable` | src/engine/strat_engine/liminal/setup.rs:171-186 | Every device is filed with exactly its recorded segments, in recorded order |
| `Save.GetBlockdev` | src/engine/strat_engine/liminal/setup.rs:193-268 | Succeeds exactly when the device has not shrunk, is recorded and can hold its segments; its used sectors are then its metadata region and those segments |
| `Save.BuiltUnique` | src/engine/strat_engine/liminal/setup.rs:193-268 | Metadata and device leave nothing open about the device that is set up |
| `Save.CheckAndSort` | src/engine/strat_engine/liminal/setup.rs:292-329 | Succeeds exactly on distinct uuids equal to the recorded ones, and then permutes the devices into recorded order |
| `Save.GetBlockdevs` | src/engine/strat_engine/liminal/setup.rs:145-346 | Exactly when it succeeds, and then both tiers are complete, in recorded order and rebuilt from what was found |
| `Restore.UsedIs` | src/engine/strat_engine/backstore/blockdev.rs:98-119 | In a tier whose sectors are split between segments and free list, the used sectors of a device are its metadata region and what the segments take of it |
| `Restore.RecordedInsertable` | src/engine/strat_engine/backstore/blockdev.rs:98-119 | The metadata region and the recorded segments of a device fit on it together |
| `Restore.RecordIsAccepted` | src/engine/strat_engine/liminal/setup.rs:145-346 | The record of a backstore accepts its own devices in every order in which they are found |
| `Restore.TierComesBack` | src/engine/strat_engine/liminal/setup.rs:292-346 | The devices of a tier come back in their old order with their old used maps |
| `Restore.SegsComeBack` | src/engine/strat_engine/backstore/shared.rs:30-49 | Recorded segments come back with the same uuid, start and length |
| `Restore.SetupComesBack` | src/engine/strat_engine/backstore/backstore.rs:124-166 | Setting the tiers up gives the recorded segments, tables and `next`, and the cache tier is found fully allocated |
| `Restore.SetupBackstore` | src/engine/strat_engine/backstore/backstore.rs:124-166 | Set up succeeds only on acceptable devices, and is then the set up of the tiers over the gathered devices |
| `Restore.RecordAndRestore` | src/engine/strat_engine/liminal/setup.rs:145-346 | Recording and restoring gives the same backstore for every order in which devices are found, device numbers following what was found |
| `Restore.RestoredIs` | src/engine/strat_engine/liminal/setup.rs:145-346 | Whatever set up makes of the record of a backstore and the devices found again, it is that backstore |
| `Restore.SetupIff` | src/engine/strat_engine/liminal/setup.rs:145-346 | Set up from the record of a backstore succeeds if and only if exactly its devices are found, none missing, no stranger among them and none on a smaller disk, and then gives that backstore |
| `Restore.SetupSucceedsIff` | src/engine/strat_engine/backstore/backstore.rs:124-166 | The tiers can be set up if and only if every recorded segment is on a device of its tier, and a cache, if there are devices for one, was recorded and leaves none of their space over |
| `Restore.RestoreAndRecord` | src/engine/strat_engine/backstore/backstore.rs:124-166 | Recording what was set up from metadata gives the same metadata, whatever was found |
| `Restore.RestartUndoesLoss` | src/engine/strat_engine/backstore/backstore.rs:124-166 | Set up gives a backstore that lost its cap device a new one, in which every sector mapped before the loss is mapped as it was, if and only if exactly its devices are found, none of them shrunk |
| `Restore.CacheDevicesBlock` | src/engine/strat_engine/liminal/setup.rs:225-239 | While a device of the cache that could not be made is found, set up fails |
| `Restore.LostPoolStaysDown` | src/engine/strat_engine/liminal/setup.rs:225-239 | A new pool on a device of 1 GiB whose cache cannot be made is not set up again while the cache device is there |
| `Restore.SameNumbersSameState` | src/engine/strat_engine/backstore/data_tier.rs:38-52 | Under unchanged device numbers the restored backstore is equal to one whose tables held its tiers |
| `Restore.RestoredKeepsInv` | src/engine/strat_engine/backstore/backstore.rs:124-166 | The tables of the restored backstore hold its tiers, it is sound whenever `next` was within the segments, and satisfies the run invariant when there was no slack, so runs go on across restarts |
| `Restore.FoundOrderDoesNotMatter` | src/engine/strat_engine/liminal/setup.rs:270-329 | For any metadata, two orders of the same devices give the same result |
| `CheckMetadata.NextIsMaxEnd` | src/engine/strat_engine/pool.rs:39-63 | The next index is where the extent that ends last ends |
| `CheckMetadata.NextIndexExact` | src/engine/strat_engine/pool.rs:39-63 | For any metadata, consistent or not, the next index is the end of the extent that starts last, the later one in a tie |
| `CheckMetadata.TilesIff` | src/engine/strat_engine/pool.rs:83-99 | Disjoint extents below a bound add up to it exactly when they leave no gap |
| `PoolLife.TrialHandsOut` | src/engine/strat_engine/backstore/backstore.rs:373-441 | The chunks and grants of any run follow one another without a gap from the first `next` to the last, whatever fails on the way |
| `PoolLife.HandedOutOnce` | src/engine/strat_engine/backstore/backstore.rs:373-441 | No sector of the cap device is handed out by two steps of a run, whatever fails in between |
| `PoolLife.CheckAcceptsTrial` | src/engine/strat_engine/pool.rs:68-129 | A thin pool made of what a run handed out, in whatever pieces, passes the check against the metadata that the run saves, whatever fails in the run |
| `PoolLife.CheckIff` | src/engine/strat_engine/pool.rs:68-129 | The check accepts what a backstore records if and only if the devices of the thin pool tile what was handed out of it and the segments hold that |
| `PoolLife.SetupPool` | src/engine/strat_engine/pool.rs:196-205 | The devices are gathered, the metadata is checked and the backstore is set up, in that order; any failure on the way is a failure |
| `PoolLife.SetupPoolAgain` | src/engine/strat_engine/pool.rs:196-205 | Set up from what a pool recorded succeeds if and only if exactly its devices are found, none shrunk, and its metadata passes the check, and then gives its backstore |
| `PoolLife.Restart` | src/engine/strat_engine/liminal/liminal.rs:242-333 | Recovering, reading and setting up gives a backstore if and only if metadata is recovered, passes the check, and exactly the recorded devices are found, none shrunk, and it is the one recorded |
| `PoolLife.RestartGivesBack` | src/engine/strat_engine/liminal/setup.rs:87-346 | In every run of saves, saves cut off, restarts and new devices, a restart gives the backstore that the latest save that shows recorded, if and only if a device that holds that save can be read, it passes the check, and the devices of the pool are exactly those it recorded, none of them on a disk that shrank |
| `PoolLife.JoinedDeviceBlocks` | src/engine/strat_engine/pool.rs:492-503 | A device that joined after the latest save keeps the pool from being set up again |
| `CheckMetadata.CheckExact` | src/engine/strat_engine/pool.rs:68-129 | Accepts exactly when the four lists tile the cap allocation without a gap and the positive total of data tier segments covers it |
| `Rollback.OperationLoop` | src/engine/strat_engine/backstore/blockdevmgr.rs:676-716 | Ends with every device changed, or every device restored under the causal error; partial change only under a rollback error, which names device, causes and what is restored |
| `Rollback.RollbackLoop` | src/engine/strat_engine/backstore/blockdevmgr.rs:682-705 | Each rollback gets the index of its own device; all are restored unless one fails |

## Left out

- Devicemapper, LUKS, Clevis, keyring and udev calls: each is a step that succeeds or fails.
- JSON encoding of the metadata and the CRC32C polynomial: metadata is bytes, the checksum any function.
- Static header, block device area, thin pool and file systems: device size and metadata size are given fields, a pool is opaque.
- Single block device objects updated through references: the list of block devices is a sequence of values that the manager reassigns.
- Overflow of 64-bit sums over several sizes, segments or devices, and of `next`: these sums are unbounded, as every device bounds its own sectors.
- How devices are verified, initialized and wiped: the outcome is a parameter, and new devices arrive initialized and distinct.
- `unlock_pool`, `locked_pools`, `evented`, `teardown`, name and path validation, reports: they add no harder state change.
- The simulator engine, D-Bus interface, JSON-RPC, command line tools and systemd generators.
- Backstore.Backstore.Alloc: requires the total of the sizes to fit in 64 bits, where the original would overflow.
- Backstore.Backstore.Request: a subtraction below zero is reported as an outcome of its own, where the original panics in debug builds and wraps in release builds.
- BackstoreRuns.RunKeepsInv: covers runs whose devicemapper steps succeed, since "no slack" is lost otherwise; BackstoreFailures.TrialSound says what is kept with failures.
- BackstoreFailures.UnderflowReached: the amounts requested are chosen for the purpose; which amounts a thin pool asks for is not modelled.
- MdaRuns.CutOffInFirstCopy: any subset of the bytes may have reached the device, under the stated absence of checksum collisions.
- PoolMetadata.MetadataMgr.SaveState: a device either takes a save completely or is left unchanged; torn writes are the subject of MdaRuns, PoolCrash and PoolCrashRuns. The random choice of devices is any selection of at most ten that have room.
- PoolCrashRuns.LifeKeepsInv: a run ends when a device cannot be loaded any more (PoolCrashRuns.UnloadableIff says when); in these runs a save that is cut off is followed by a restart, and PoolCrashRuns.FailedSaveWins is about one that is not.
- PoolLife.RestartGivesBack: the encoding of the metadata is any that can be read back; the name of the pool is the subject of Engine.SetupPool, and the thin pool's own set up is not modelled.
- PoolLife.SetupPool: requires that each flex device has a segment, where the original panics otherwise.
- PoolMetadata.Stamp: times before the epoch and the upper end of the calendar library's range are not modelled, only that of a signed 64-bit count of seconds.
- Engine.SetupPool: everything between reading block device areas and starting the pool is an arbitrary outcome, except the name check.
- Restore.RecordAndRestore: opening devices and obtaining encryption handles succeed, and no data device shares a uuid with a cache device; the devicemapper accepts the tables.
- Save.CheckAndSort: the unstable sort of the standard library is an insertion sort; only that it sorts is used.
