# Verification of the SSU control plane

This project models the storage-pool control plane and the kernel block-mapping layer it
programs as one layered state machine, and proves what every step and every run keeps.

## What is modelled

- **Controller**: the pool, the allocation rows, the device rows, the released ids and the id
  counter. Its steps are refresh, allocate (first-fit striping with a compensating rollback),
  release, mount and unmount.
- **Mock plugin**: the namespace and mount tables below the controller.
- **Request shim**: the kernel's logical-device and mapping tables, one ioctl at a time; the
  user-side sagas that mount and unmount a device through them; sector translation and the
  chunked I/O loop.
- **API**: the request cache and the resolver that turns a device path into a request id.
- **Wire form**: the ALLOCATE line the SDK prints and the runtime cuts up in place.
- **Data plane**: offset translation and the transfer loops of the user-side data path.

Each mutable part appears twice. A value-level module gives the tables and the meaning of each
operation as functions (`KernelState`, `MockState`, `ControllerState`, `Resolver`); a class or
array-based method in the source's own form (`ReqShimModule`, `MockPlugin`, `ControllerModule`,
`ApiModule`, `ChunkedIo`, `CStrings`, `DataPlane`) has the loops and in-place updates, and its
contract equates the new state with that function of the old one. All properties are then proved
of the functions, over single steps and over whole runs.

Refused plugin calls, refused ioctls, a missing control device, discovery and health results,
device connections and the outcome of each open, read and write are parameters of the operations, so
the results hold for every choice of them unless a precondition says otherwise.

| module | subject |
|---|---|
| `Types`, `Tables`, `Decimal`, `CStrings` | status codes, slot tables, decimal printing and parsing, C strings in buffers |
| `KernelState`, `ReqShimModule`, `ChunkedIo` | the kernel's tables, their ioctls, chunked I/O |
| `ReqShimIface`, `Stripe` | map entries, mount and unmount sagas, stripe arithmetic |
| `MockState`, `MockPlugin` | the mock plugin |
| `Placement`, `HostKey` | first-fit placement, the canonical host key |
| `ControllerState`, `ControllerModule` | the controller's operations and runs |
| `Ledger`, `Rollback`, `Grants`, `Tiling`, `Idempotence`, `MountMirror`, `Agreement`, `EndToEnd` | what steps and runs keep |
| `Capacity`, `Refreshing`, `Repeats`, `Releases` | exactly when an allocation, a refresh, a repeated request and a release succeed, and what they change |
| `Mounting`, `MountEffects`, `Unmounting` | when a mount and an unmount succeed and what they change, one device for each allocation |
| `DeviceSizes`, `DeviceBytes` | the kernel's record of a device, and the bytes that the kernel and the user data path reach on it |
| `Isolation`, `Storage` | no sector shared, reading back what was written |
| `Resolver`, `ApiModule`, `ApiEffects` | the API's cache and resolver, and exactly when each call succeeds |
| `OneSsu`, `MountRuns`, `RepeatRun`, `NameClash` | runs from the empty stack: one that mounts a device, and those on which a general claim fails |
| `WireCommand`, `DataPlane` | the ALLOCATE line, the user data plane |

## Where the unconditional claim is false

Each of these is a property one might expect without a condition. The model follows the code;
the exact condition is proved in both directions. Where the condition can be missed, a run from the
empty stack, or ioctls on an empty kernel, miss it.

- Physical disjointness. The placement hint is the fill mark
  (`src/user/controller/ssu_controller.cpp:773`), which a release lowers wherever the released
  extent was. Over any run active extents stay disjoint if and only if each grant takes bytes that
  are free (`Tiling.AlwaysApartIff`). Releases that are last-in-first-out on every SSU are exactly
  those that keep the stronger property that extents tile the used bytes (`Tiling.ReleaseTilesIff`,
  `Tiling.LifoRunsTile`); after another release the next extent fits exactly when it ends by where
  the released one did (`Tiling.NextAfterRelease`). `OneSsu.OverlapRun` is a run with either outcome.
- The kernel follows the device rows only if nobody unmounts an unmounted path that spells a live
  minor. `ssu_controller_unmount` passes an unknown path on
  (`src/user/controller/ssu_controller.cpp:1037-1040`), and the plugin then destroys minor N of a
  path `ssuN` (`src/user/plugin/vendors/mock/ssu_plugin_mock.cpp:594-598`), even when alloc-N is
  mounted under another name. `EndToEnd.StrayUnmountIff` gives the condition and
  `Mounting.StrayUnmountKills` what the unmount does in every state with such a device;
  `MountRuns.StrayRun` is a run that does it.
- Chunked I/O equals per-sector translation exactly when every range is continued by what the scan
  finds at its later sectors (`ChunkedIo.ChunksAgreeIff`), and stops at missing translations only
  exactly when no range wraps (`ChunkedIo.StopsAtMissIff`). `map_add` refuses equal starts, not
  overlaps (`src/kernel/reqshim/reqshim_map.c:49`), and does not check a range's end:
  `ChunkedIo.OverlapBreaksChunks` breaks the first condition with three ioctls and
  `ChunkedIo.WrapStopsChunks` the second with two. Mounted devices meet both
  (`EndToEnd.MountedDeviceIo`).
- Repeating a granted named request succeeds only if the tenant was stored in full and the disk
  count is at most the size: `Idempotence.NamedRequestIsIdempotent`. `RepeatRun.RepeatRefused` is a
  run for every tenant that is too long.
- Two mounted devices share no physical sector if and only if the extents of their allocations share
  no byte (`Isolation.IsolatedIff`), so the first condition above is also what isolation needs
  (`Isolation.ReachableIsolated`); `MountRuns.SharingRun` mounts two that overlap.
- A shared allocation cannot be mounted twice with the control device present, on any run
  (`Mounting.SecondMountRefused`). The minor is the N
  of alloc-N and falls back to the number in the path only when N exceeds 32 bits
  (`src/user/plugin/reqshim_iface.cpp:478-499`). Namespaces are numbered at least as fast as
  allocations (`Mounting.RunKeepsAhead`), and a namespace number above 32 bits is refused
  (`src/user/plugin/reqshim_iface.cpp:97-125`), so such an allocation cannot be mounted at all
  (`Mounting.LargeIdsNeverMount`) and no reachable state has two devices for one allocation
  (`Mounting.ReachableOneDeviceEach`). For any numbering of namespaces `Mounting.SecondMountIff` is
  the exact condition on the two paths, and `Mounting.LargeIdFollowsPath` gives paths that meet it.
- The resolver agrees with its lookup if and only if no disk name misleads it
  (`Resolver.ResolverAgreesIff`): a disk named ssuN of another allocation than the active alloc-N
  hides that one as soon as its path is cached. `NameClash.MisleadingRun` is such a run. The bounds
  of the result are mount paths of at most 63 characters, mounts that go through the API and at most
  2^32 ids (`Resolver.CallsFit`).

## Model

| member | source | states |
|---|---|---|
| `EndToEnd.ReachableDevicesTranslate` | src/user/controller/ssu_controller.cpp:739-817 | after every run from the empty stack, with the control device present and no stray unmount, each mounted device is a whole stripe and its minor translates exactly the sectors [0, size/512), each to its extent's phys_sector plus the distance into the extent |
| `EndToEnd.MountedDeviceTranslates` | src/kernel/reqshim/reqshim_cmd.c:39-53 | in every state that satisfies the stack invariant the device's minor is live and each sector goes to the device name that its own extent was connected to |
| `EndToEnd.MountedDeviceInjective` | src/kernel/reqshim/reqshim_cmd.c:39-53 | two sectors of a mounted device never share a physical sector, and the kernel's ranges for it neither overlap nor wrap |
| `EndToEnd.MountedDeviceIo` | src/kernel/reqshim/reqshim_blk.c:70-163 | for every mounted device the chunks sent are the per-sector translation, and only a missing translation stops a whole-sector segment, whatever is read or written |
| `DeviceSizes.DeviceRecords` | src/user/plugin/reqshim_iface.cpp:412-420 | over every run from the empty stack that keeps the kernel in step, the kernel's record of a mounted device's minor says its allocation's size divided by 512 as capacity, 512 as block size and the last component of its path as name |
| `DeviceSizes.RunKeepsSized` | src/user/plugin/reqshim_iface.cpp:285-296 | over every run that keeps the kernel in step, every mounted device is recorded with the end of its own extents |
| `DeviceBytes.DeviceByte` | src/user/dataplane/ssu_dataplane.cpp:16-68 | for every byte of a mounted device and the row that holds it, the user data path reaches byte 512 * phys + b % 512 of the device whose physical sector phys the kernel's translation of sector b / 512 gives |
| `DeviceBytes.TransferFollowsKernel` | src/user/dataplane/ssu_dataplane.cpp:121-175 | what a completed write leaves in a row's file, and what a completed read takes from it, is byte by byte what the kernel's translation of each byte's sector reaches |
| `DeviceBytes.RowRefusesOthers` | src/user/dataplane/ssu_dataplane.cpp:16-68 | on a row of a mounted device the checks refuse exactly the ranges that are not inside the row |
| `DeviceBytes.BytesApart` | src/user/dataplane/ssu_dataplane.cpp:16-68 | different bytes of one mounted device go to different devices or different file bytes |
| `DeviceBytes.OneRowHolds` | src/user/controller/ssu_controller.cpp:1000-1019 | no two rows of a mounted device hold the same byte |
| `DeviceBytes.SomeRowHolds` | src/user/controller/ssu_controller.cpp:1000-1019 | every byte below the allocation's size has a row |
| `MountRuns.MountedRun` | src/user/controller/ssu_controller.cpp:920-1022 | discovering one SSU, allocating 1024 bytes and mounting them under /x meets all hypotheses of the theorems over runs and ends in a state that satisfies the stack invariant, with that one device mounted |
| `Storage.MountedReadBack` | src/kernel/reqshim/reqshim_blk.c:70-216 | in every state that satisfies the stack invariant, a completed read of a mounted device into parts of pages used once returns, sector for sector, the pages of a completed write of the same sectors, however either was cut into segments and chunks |
| `Storage.ReadBack` | src/kernel/reqshim/reqshim_blk.c:70-216 | the same for any table and minor on which different sectors of the request go to different places |
| `Storage.OnlyTargetsWritten` | src/kernel/reqshim/reqshim_blk.c:133-160 | a completed write changes no block but those that its own sectors translate to |
| `Storage.OthersKeepContents` | src/kernel/reqshim/reqshim_blk.c:133-160 | where mounted devices are isolated, a completed write of one leaves every block that another translates to as it was |
| `Isolation.IsolatedIff` | src/user/controller/ssu_controller.cpp:739-817 | in every state that satisfies the stack invariant and the numbering of namespaces, with one device name for each SSU: sectors of different mounted devices never translate to the same device and physical sector if and only if extents of different mounted allocations share no byte |
| `Isolation.ReachableIsolated` | src/user/controller/ssu_controller.cpp:739-817 | over every run from the empty stack that keeps the kernel in step, under one injective naming of SSUs, whose grants take free bytes, no two mounted devices share a physical sector |
| `Isolation.RunKeepsNamed` | src/user/plugin/vendors/mock/ssu_plugin_mock.cpp:243-283 | over every run whose mounts use one naming of SSUs, each mounted device holds its allocation's extents under those names |
| `MountRuns.SharingRun` | src/user/controller/ssu_controller.cpp:773-774 | the overlapping allocations of `OneSsu.OverlapRun`, both mounted, end in a state that satisfies all of that but is not isolated |
| `EndToEnd.RunKeepsStack` | src/user/controller/ssu_controller.cpp:995-1060 | all table invariants together, and that the live minors are exactly those of the mounted devices, survive every run |
| `EndToEnd.BootsInStep` | src/user/controller/ssu_controller.cpp:15-32 | the empty stack satisfies the stack invariant, so the runs above exist |
| `EndToEnd.StrayUnmountIff` | src/user/controller/ssu_controller.cpp:1034-1046 | an unmount keeps the kernel in step with the device rows exactly when the path is mounted, spells no minor, or spells a minor that is not live |
| `Mounting.StrayUnmountKills` | src/user/controller/ssu_controller.cpp:1034-1046 | in every state that satisfies the stack invariant, unmounting the unmounted path DIR/ssuN while alloc-N is mounted elsewhere and the control device is present is reported as done, keeps the device rows, and leaves minor N dead with no sector translated |
| `MountRuns.StrayRun` | src/user/controller/ssu_controller.cpp:1034-1046 | a run: alloc-0 is mounted under /x, unmounting /dev/ssu/ssu0 is reported as done, and the device keeps its row but translates no sector any more |
| `Mounting.MountSucceedsIff` | src/user/plugin/reqshim_iface.cpp:383-475 | in every state that satisfies the stack invariant, with the control device present and nothing injected, a mount succeeds exactly when the controller admits it, the disk name is permitted, 512 times the extent count divides the size, device and namespace names are in order, and the minor is below 256 and not live; a refused mount changes nothing |
| `MountEffects.MountIff` | src/user/controller/ssu_controller.cpp:920-1022 | the same with the controller's checks written out over its tables (rows, path, sharing, free device rows, SSUs that connect), and with the status of every refusal: the first check that fails, BUSY for a minor in use, INVALID for a device that cannot be built |
| `MountEffects.MountCheckIff` | src/user/controller/ssu_controller.cpp:930-993 | the controller's checks pass exactly when the allocation has rows, the path is free, no other device holds an allocation that is not shared, there is a free device row for each extent and every SSU connects |
| `MountEffects.MountGives` | src/user/controller/ssu_controller.cpp:995-1019 | after a mount each extent has a device row under the name its SSU was connected to, there is exactly one more row for each, the plugin has the mount, the minor is live, the allocation's rows are MOUNTED, and nothing else has changed in any table |
| `MountEffects.MountWithoutControl` | src/user/plugin/reqshim_iface.cpp:422-433 | without a control device a mount that could be built is recorded by controller and plugin but not by the kernel; with one that cannot be used it is refused and changes nothing |
| `Unmounting.UnmountSucceedsIff` | src/user/controller/ssu_controller.cpp:1024-1063 | in every state that satisfies the stack invariant, with the control device present, unmounting a mounted path succeeds exactly when every SSU of its allocation connects under a name of 1 to 63 characters; then the path's device rows and the plugin's mount are gone, its minor is dead and translates nothing, its allocation's rows are ACTIVE unless another device holds it, and nothing else has changed; a refused unmount changes nothing |
| `Unmounting.MountThenUnmount` | src/user/controller/ssu_controller.cpp:920-1063 | unmounting a path that was just mounted gives back the whole stack: every table of controller, plugin and kernel, slot by slot |
| `Unmounting.UnmountWithoutControl` | src/user/plugin/reqshim_iface.cpp:559-575 | without a control device the unmount of a mounted path whose SSUs connect is recorded by controller and plugin while the kernel keeps its device; with one that cannot be used it is refused and changes nothing |
| `Unmounting.StrayOutcome` | src/user/plugin/vendors/mock/ssu_plugin_mock.cpp:594-598 | unmounting an unmounted path takes away the live minor that it spells, and is otherwise refused with the stack as it was |
| `Mounting.KernelMounts` | src/kernel/reqshim/reqshim_map.c:43-75 | with as many free map slots as extents the create and add ioctls of a stripe all succeed exactly when it is buildable under a permitted name on an unused minor: no MAP_ADD meets a used start or a full table |
| `Mounting.MapsWithinRows` | src/kernel/reqshim/reqshim_map.c:43-75 | the kernel never holds more mappings than the controller has device rows, by an injection of map slots into device rows, so the mapping table never fills first |
| `Mounting.ReachableOneDeviceEach` | src/user/plugin/reqshim_iface.cpp:478-499 | over every run from the empty stack that keeps the kernel in step, all device rows of one allocation, shared or not, are rows of one device |
| `Mounting.SecondMountRefused` | src/user/plugin/reqshim_iface.cpp:478-499 | a second mount of an allocation under any path, with the control device not missing, is refused and changes nothing |
| `Mounting.LargeIdsNeverMount` | src/user/plugin/reqshim_iface.cpp:97-125 | an allocation whose number exceeds 32 bits cannot be mounted, under any path, because its namespaces have larger numbers still |
| `Mounting.RunKeepsAhead` | src/user/plugin/vendors/mock/ssu_plugin_mock.cpp:499-507 | over every run the namespace counter is not behind the id counter, and every row's namespace number is at least its allocation's |
| `Mounting.SecondMountIff` | src/user/plugin/reqshim_iface.cpp:478-499 | in any state that satisfies the stack invariant alone, a second mount that the controller admits succeeds exactly when the allocation's number does not fit 32 bits and the mount is mountable on the minor that the path itself spells; that side needs smaller namespace numbers, which no run of this plugin reaches |
| `ChunkedIo.SubmitBvec` | src/kernel/reqshim/reqshim_blk.c:70-163 | for any table: what is returned and recorded is the chunk loop's result and OK means the whole segment was submitted; where every range is continued by what the scan finds at its later sectors, the record is exactly the per-sector translation of the sectors passed; where no range wraps, only a length that is not whole sectors, a device error or a missing translation stops it |
| `ChunkedIo.SubmitSectors` | src/kernel/reqshim/reqshim_blk.c:87-162 | the loop ends where the rounds, each a function of the table, the sector and the bytes done, lead |
| `ChunkedIo.NextChunk` | src/kernel/reqshim/reqshim_blk.c:87-138 | one round translates, cuts at the range's end and at 32 bits, and gives the chunk to send or the status to stop with |
| `ChunkedIo.ChunksAgreeIff` | src/kernel/reqshim/reqshim_blk.c:70-163 | for any table and minor, the record of every segment, start, device error and earlier record equals per-sector translation of the sectors passed if and only if every range found at a sector is continued, within one 32-bit chunk, by the entry that the scan finds at each of its later sectors |
| `ChunkedIo.StopsAtMissIff` | src/kernel/reqshim/reqshim_blk.c:102-118 | for any table and minor, whole-sector segments without device errors stop at a missing translation only, if and only if no range that the scan finds wraps past 64 bits |
| `ChunkedIo.RoundSends` | src/kernel/reqshim/reqshim_blk.c:87-138 | on whole sectors a round sends exactly when its sector translates to a range not yet ended; the chunk is not empty, is whole sectors, starts where the sector translates to, and leaves neither the range nor the segment |
| `ChunkedIo.LoopKeeps` | src/kernel/reqshim/reqshim_blk.c:87-162 | what every round that sends keeps holds at every exit of the loop, and the loop stops only when all bytes are done, at a device error, or where a round stops |
| `ChunkedIo.CleanHolds` | src/kernel/reqshim/reqshim_blk.c:96-118 | ranges that neither overlap nor wrap meet both conditions |
| `ChunkedIo.ChunkFits` | src/kernel/reqshim/reqshim_blk.c:108-131 | the 32-bit byte limit never overflows and on whole sectors the masked chunk is not empty and leaves neither the mapping nor the segment |
| `ChunkedIo.ChunkAgrees` | src/kernel/reqshim/reqshim_blk.c:133-155 | a chunk inside one mapping sends each of its sectors where translating that sector alone would |
| `ChunkedIo.RunSegments` | src/kernel/reqshim/reqshim_blk.c:201-206 | where both conditions hold, a successful request is the concatenation of its segments' translations, and a request all of whose sectors translate succeeds unless a device fails |
| `ChunkedIo.RunRequest` | src/kernel/reqshim/reqshim_blk.c:165-216 | on a live minor where both conditions hold, a read or write without device errors succeeds exactly when it is whole sectors and every sector translates; on a dead minor or for another operation nothing is submitted |
| `ChunkedIo.OverlapBreaksChunks` | src/kernel/reqshim/reqshim_map.c:43-55 | in any empty kernel, creating device 0 and adding ranges [1,2) and [0,2) succeeds, and the loop then sends sectors 0 and 1 as one chunk to the second range's device although sector 1 alone translates to the first |
| `ChunkedIo.WrapStopsChunks` | src/kernel/reqshim/reqshim_map.c:26-82 | in any empty kernel, creating device 0 and adding the range of 2^64 - 3 sectors from sector 5 succeeds; sector 5 then translates, but the loop stops there with an I/O error and nothing sent |
| `Placement.SelectComplete` | src/user/controller/ssu_controller.cpp:121-158 | first fit finds a choice exactly when some choice of distinct online SSUs exists whose marks are divisible by 512 and, with the extent behind them, at most the SSU's size |
| `Placement.SelectIsAssignment` | src/user/controller/ssu_controller.cpp:121-158 | the chosen indexes are distinct and online, and each one's mark is divisible by 512 and, with its extent behind it, at most its size |
| `Placement.StuckMeansImpossible` | src/user/controller/ssu_controller.cpp:121-158 | when first fit is stuck at extent n no choice of n SSUs exists, because extent lengths never grow |
| `Placement.SelectPoolIndexes` | src/user/controller/ssu_controller.cpp:121-158 | the two nested loops compute the specified choice and fail exactly when it is none |
| `Capacity.AllocGrantedIff` | src/user/controller/ssu_controller.cpp:109-158 | an allocation under a name not in use is granted exactly when the request is in order, SSUs are online and as many as it asks for (every one of them if it leaves the number open), the buffer and the row table have room for n extents, n different online SSUs have a mark divisible by 512 that stays at or below their size with the extent behind it, and no create is refused; BUFFER_TOO_SMALL exactly when only the buffer fails first, with n as the count |
| `Capacity.AllocFills` | src/user/controller/ssu_controller.cpp:764-817 | after a grant each new extent starts at the old mark of an online SSU, whose mark is now higher by the extent's length and not above its size; every other SSU is as it was |
| `Capacity.AllocRefusals` | src/user/controller/ssu_controller.cpp:651-737 | a replica or EC request is UNSUPPORTED, a malformed one INVALID, and one without SSUs, rows or room NO_RESOURCE |
| `Capacity.AllocStopsAt` | src/user/controller/ssu_controller.cpp:778-784 | the first refused create gives the answer |
| `Refreshing.RefreshGives` | src/user/controller/ssu_controller.cpp:507-562 | after a refresh the pool holds the SSUs found, with the mark the pool had for them or else the reported one, and those it had before, each in the state its health check gives or OFFLINE |
| `Refreshing.RefreshOkIff` | src/user/controller/ssu_controller.cpp:507-562 | a refresh succeeds exactly when the discovery does and the SSUs found, with those of the pool that it lacks, are at most 128 |
| `Refreshing.UnhealthyTakesNothing` | src/user/controller/ssu_controller.cpp:488-505 | from a refresh to the next, over any run, new extents go only to SSUs whose health check said ONLINE |
| `Ledger.Conservation` | src/user/controller/ssu_controller.cpp:507-562 | over every run the fill mark of every SSU minus the lengths of its active rows stays what it was, and no SSU is lost |
| `Ledger.UndoOneKeepsBooks` | src/user/controller/ssu_controller.cpp:826-838 | giving an extent back never meets a fill mark that is too low, so the guard never skips the subtraction and the books stay balanced |
| `Ledger.RefreshKeepsBooks` | src/user/controller/ssu_controller.cpp:507-562 | a refresh in any discovery order keeps every known SSU and its balance |
| `Ledger.DiscoveryStartsBooks` | src/user/controller/ssu_controller.cpp:507-562 | a newly discovered SSU starts with the mark it reports and no extents |
| `Ledger.StepKeepsBooks` | src/user/controller/ssu_controller.cpp:507-890 | every operation, failing or not, keeps the balance of every SSU |
| `Tiling.LifoRunsTile` | src/user/controller/ssu_controller.cpp:773-774 | over every run that releases an allocation only when none of its extents has a later one on its SSU, the active extents of each SSU are disjoint and cover exactly the bytes below the fill mark |
| `Tiling.ReleaseTilesIff` | src/user/controller/ssu_controller.cpp:848-890 | a release of a tiled state keeps the tiling if and only if every extent of the allocation is the last on its SSU |
| `Tiling.BuriedReleaseSticksOut` | src/user/controller/ssu_controller.cpp:873-878 | releasing a buried extent leaves a later extent reaching past the fill mark |
| `Tiling.NextExtentOverlaps` | src/user/controller/ssu_controller.cpp:769-776 | the next extent placed on an SSU whose fill mark lies inside an active extent shares bytes with that very extent |
| `Tiling.AlwaysApartIff` | src/user/controller/ssu_controller.cpp:739-817 | over any run, with any refusals, releases in any order and any discovered fill marks, active extents are disjoint after every step if and only if every grant takes, on each of its SSUs, bytes from the fill mark on that no active extent meets |
| `Tiling.StepApartIff` | src/user/controller/ssu_controller.cpp:507-1063 | a single operation keeps active extents disjoint exactly then; only a grant can break it |
| `Tiling.AdvanceApartIff` | src/user/controller/ssu_controller.cpp:769-817 | one placement keeps them disjoint exactly when no active extent on its SSU meets the bytes [used, used + len) |
| `Tiling.NextAfterRelease` | src/user/controller/ssu_controller.cpp:866-881 | releasing from a tiled state lowers the mark of each SSU concerned by the released length, and the next len bytes there are free exactly when the released extent was on top or they end by where it ended |
| `OneSsu.OverlapRun` | src/user/controller/ssu_controller.cpp:773-774 | on one SSU from the empty stack: allocate 1024, allocate 512, release the first, allocate n up to 1024: the active extents are disjoint exactly when n is at most 512 |
| `Tiling.StepKeepsTiled` | src/user/controller/ssu_controller.cpp:507-890 | every other operation keeps the tiling |
| `Rollback.AllocAllOrNothing` | src/user/controller/ssu_controller.cpp:651-846 | a failed allocation leaves all controller tables, fill marks, the counter, mounts and kernel as before, and the plugin's namespaces too unless it refuses a delete |
| `Rollback.PlaceAllOrNothing` | src/user/controller/ssu_controller.cpp:819-845 | the same for the placement loop and its compensation |
| `Rollback.UndoneStep` | src/user/controller/ssu_controller.cpp:826-841 | compensating the last extent is the inverse of placing it |
| `Rollback.DeleteUndoesCreate` | src/user/plugin/vendors/mock/ssu_plugin_mock.cpp:468-528 | deleting the namespace just created restores the plugin's table |
| `Rollback.OnlyCreateFails` | src/user/controller/ssu_controller.cpp:739-784 | past the checks, only a refused create can stop the loop |
| `Rollback.RechecksAreDead` | src/user/controller/ssu_controller.cpp:739-762 | when the loop reaches an extent a row is free, and its SSU's mark is divisible by 512 and, with the extent behind it, at most its size, so no recheck fires |
| `Rollback.SearchIsImmediate` | src/user/controller/ssu_controller.cpp:462-472 | when every used id is alloc-k below the counter the search stops at its first test with a new id |
| `Agreement.RunKeepsAgreement` | src/user/controller/ssu_controller.cpp:747-817 | over every run without a refused delete the rows and the plugin's namespaces agree slot by slot, mounted devices equal plugin mounts, and every allocation is a whole stripe |
| `Agreement.StepKeepsAgreement` | src/user/plugin/vendors/mock/ssu_plugin_mock.cpp:468-617 | one operation keeps that agreement |
| `Agreement.DeleteHitsTwin` | src/user/plugin/vendors/mock/ssu_plugin_mock.cpp:513-528 | delete_ns never fails on an active row and clears that row's twin |
| `Agreement.ReleaseSucceeds` | src/user/controller/ssu_controller.cpp:848-890 | an active allocation without devices can always be released and is then gone from both tables |
| `Releases.ReleaseIff` | src/user/controller/ssu_controller.cpp:848-890 | a release succeeds exactly when no device is mounted for the id, it has rows or is remembered, and no delete for its rows is refused; then its rows and namespaces are gone, the mark of each SSU is lower by exactly what it had there, and every other slot is as it was |
| `Releases.ReleaseStops` | src/user/controller/ssu_controller.cpp:863-871 | a refused delete stops the loop at its row: earlier rows of the id are gone, later ones stay, and its status is the answer |
| `Releases.ReleaseAgain` | src/user/controller/ssu_controller.cpp:450-460 | after any run since, releasing a released id again changes nothing and is OK if the id was remembered or there was room to remember it, NOT_FOUND otherwise |
| `Agreement.AdmittedIsGranted` | src/user/plugin/vendors/mock/ssu_plugin_mock.cpp:485-511 | the plugin's namespace table never fills before the controller's |
| `Agreement.MountTableHasRoom` | src/user/plugin/vendors/mock/ssu_plugin_mock.cpp:547-581 | the plugin's mount table has room whenever the device table has |
| `MountMirror.RunKeepsMirror` | src/user/controller/ssu_controller.cpp:955-1060 | over every run the rows of a mounted device copy all rows of one allocation for one host, a row is MOUNTED exactly when some device has its id, and only a shared allocation has two devices |
| `MountMirror.MountKeepsMirror` | src/user/controller/ssu_controller.cpp:955-1019 | mounting keeps the mirror |
| `MountMirror.UnmountKeepsMirror` | src/user/controller/ssu_controller.cpp:1048-1060 | dropping a device's rows and restating its allocation keeps the mirror, also where another device still holds it |
| `MountMirror.StepKeepsMirror` | src/user/controller/ssu_controller.cpp:859-861 | every operation keeps the mirror; release relies on its BUSY check |
| `Resolver.ResolverAgrees` | src/user/api/ssu_api.cpp:493-527 | after any run of API calls in whose final state no disk name misleads, the resolver's answer for a path is the active alloc-N for a last component ssuN and otherwise the owner of that disk name, whatever the cache holds |
| `Resolver.ResolverAgreesIff` | src/user/api/ssu_api.cpp:493-527 | after any run of API calls, the resolver agrees with that lookup on every path, then and after any further calls that only touch the cache, if and only if no device is mounted under the ssuN of another active allocation and every disk named ssuN of another one than the active alloc-N has its own path mounted |
| `Resolver.AgreesIff` | src/user/api/ssu_api.cpp:493-527 | the same in any state that satisfies the invariant |
| `Resolver.NoClashAgrees` | src/user/api/ssu_api.cpp:493-527 | no active disk reading ssuN under another id than an active alloc-N is enough for that, and necessary while nothing is mounted |
| `Resolver.ResolveIsCandidate` | src/user/api/ssu_api.cpp:493-527 | in any state that satisfies the invariant the answer is an active id that the path may mean, alloc-N for ssuN or the owner of the disk name, and NOT_FOUND only if there is none; the invariant is kept although the cache is written |
| `Resolver.ResolveIsLookup` | src/user/api/ssu_api.cpp:493-527 | in any state that satisfies the invariant and in which no disk name misleads, the answer is the lookup of the last component |
| `Resolver.ResultPathResolves` | src/user/api/ssu_api.cpp:828-869 | while no disk name clashes, the device path a result query reports resolves back to the request |
| `ApiEffects.ApiFreeIff` | src/user/api/ssu_api.cpp:789-812 | in any state that satisfies the invariant and in which nothing misleads, freeing a path succeeds exactly when its lookup finds an id without a mounted device and no delete is refused; then the id's rows and namespaces are gone, its bytes are given back, nothing else has changed below the API, and no path leads to it; a mounted allocation is BUSY, an unknown path NOT_FOUND |
| `ApiEffects.ApiMountIff` | src/user/api/ssu_api.cpp:871-903 | with nothing injected, mounting a path succeeds exactly when its lookup finds an id that the tables allow and that can be built on a minor of its own; then the device is there under the first 63 characters of the path, which leads to the id; the status of every refusal |
| `ApiEffects.ApiAllocateIff` | src/user/api/ssu_api.cpp:672-745 | an allocate call under a name not in use is granted exactly when it is in order, the refresh succeeds, pool and rows have room for what it asks (one disk if it says none) and the request cache has a free slot; the id is the next one and its rows carry user, name, sharing and hosts; a full cache is INTERNAL |
| `ApiEffects.ApiAllocateNamed` | src/user/api/ssu_api.cpp:724-745 | an allocate call under a name in use gets the owner exactly when its rows hold what is asked for and the cache has a slot, is NS_EXISTS exactly when they do not, and changes nothing but the refreshed pool |
| `ApiEffects.ApiResultIff` | src/user/api/ssu_api.cpp:828-869 | a result query succeeds exactly when the id has rows and the cache a slot, and reports /dev/ssu/ with the disk name or with ssu and the id's number |
| `Resolver.CallKeepsInv` | src/user/api/ssu_api.cpp:672-917 | every API call keeps cached paths of active requests equal to their own path and mounted devices under paths that may mean their allocation, whatever the disk names |
| `Resolver.RegisterKeepsCache` | src/user/api/ssu_api.cpp:303-339 | registering a request caches exactly the path that belongs to it |
| `Resolver.PathLeadsBack` | src/user/api/ssu_api.cpp:239-260 | while no disk name clashes, an active request's own path is answered with that request |
| `Resolver.GrantIsActive` | src/user/api/ssu_api.cpp:727-736 | a granted allocation is active under the name that was asked for |
| `Resolver.RefusedAllocateLeavesRows` | src/user/api/ssu_api.cpp:726-742 | an allocate call that is refused leaves the row table as it was, also when the grant succeeded and only the request cache was full, because the compensating release takes exactly the fresh rows back |
| `NameClash.MisleadingRun` | src/user/api/ssu_api.cpp:507-520 | two API calls from the start, one for a disk named ssu1 and one without a name, meet every condition of `Resolver.ResolverAgrees` but the last, and make the resolver answer /dev/ssu/ssu1 with alloc-0 from the cache, while alloc-1 is active |
| `Resolver.TwoPhaseIsOneCall` | src/user/api/ssu_api.cpp:560-577 | asking for the extent count and then allocating is one allocation with a buffer as large as the row table |
| `Resolver.BufferIsTwoPhase` | src/user/api/ssu_api.cpp:529-580 | a caller with a buffer as large as the row table gets what a caller without one gets, refusals included |
| `Resolver.BelowKeepsInv` | src/user/api/ssu_api.cpp:583-624 | controller calls that bypass the API, mounts excepted, keep the invariant |
| `ReqShimIface.MountAllOrNothing` | src/user/plugin/reqshim_iface.cpp:383-475 | a mount that fails at any point leaves both kernel tables as they were; one that succeeds makes its minor live with exactly its entries and touches no other minor |
| `ReqShimIface.UnmountUndoesMount` | src/user/plugin/reqshim_iface.cpp:527-599 | mount followed by unmount is the identity on the kernel's tables |
| `ReqShimIface.UnmountClears` | src/user/plugin/reqshim_iface.cpp:527-599 | an unmount that succeeds leaves the minor dead and unmapped and every other slot untouched; one that fails changes nothing |
| `ReqShimIface.OtherMinors` | src/user/plugin/reqshim_iface.cpp:434-467 | when only one minor's slots change, the entries of all other minors are the same |
| `ReqShimIface.StripeMountable` | src/user/plugin/reqshim_iface.cpp:228-298 | a stripe with valid device and namespace names is accepted exactly when 512 times the extent count divides its size, and its capacity is then the size |
| `ReqShimIface.BuildEntries` | src/user/plugin/reqshim_iface.cpp:256-298 | the loop accepts exactly the buildable specs and returns their entries and the largest end |
| `ReqShimIface.IssueMount` | src/user/plugin/reqshim_iface.cpp:434-467 | the create and add ioctls with their rollback compute the specified step |
| `ReqShimIface.MountLogdev` | src/user/plugin/reqshim_iface.cpp:383-475 | the whole mount, with a missing or unopenable control device, a failed version ioctl, another version and refused ioctls, computes the specified step |
| `ReqShimIface.UnmountLogdev` | src/user/plugin/reqshim_iface.cpp:527-599 | the whole unmount, with the same outcomes of opening and version check, computes the specified step |
| `KernelState.IoctlsKeepInv` | src/kernel/reqshim/reqshim_blk.c:301-433 | every ioctl keeps: no two ranges of a minor start alike, and an inactive minor has no mappings |
| `KernelState.IoctlFrame` | src/kernel/reqshim/reqshim_map.c:26-168 | an ioctl changes no slot of another minor |
| `KernelState.AddMapIff` | src/kernel/reqshim/reqshim_map.c:26-82 | MAP_ADD succeeds exactly for a named, non-empty range of a live minor with a new start while a slot is free, and fills the first free slot |
| `KernelState.DelMapIff` | src/kernel/reqshim/reqshim_map.c:84-116 | MAP_DEL frees exactly the slot of the minor's range with that start, and fails exactly if there is none |
| `KernelState.DeviceIoctlsIff` | src/kernel/reqshim/reqshim_blk.c:301-433 | a device is created exactly on an unused minor below 256 with a valid size, block size and name unless the block layer refuses, and destroyed, mappings included, exactly if it is live |
| `KernelState.TranslateIff` | src/kernel/reqshim/reqshim_cmd.c:4-62 | for any table a sector goes to the first slot whose range holds it, at the same distance; past 64 bits it is refused, and where no range holds it there is none |
| `KernelState.TranslateDisjoint` | src/kernel/reqshim/reqshim_cmd.c:4-62 | without overlap the slot order does not matter: the scan hits a range exactly on its sectors |
| `ReqShimModule.ReqShim.MapAdd` | src/kernel/reqshim/reqshim_map.c:26-82 | the slot scan computes the specified add: refused on an equal start or a full table |
| `ReqShimModule.ReqShim.MapDel` | src/kernel/reqshim/reqshim_map.c:84-116 | the slot scan deletes the entry with that minor and start, or reports none |
| `ReqShimModule.ReqShim.MapQuery` | src/kernel/reqshim/reqshim_map.c:118-149 | the scan finds the first slot whose range holds the sector |
| `ReqShimModule.ReqShim.MapClearMinor` | src/kernel/reqshim/reqshim_map.c:151-168 | all mappings of the minor are gone and no other slot has changed |
| `ReqShimModule.ReqShim.TranslateSector` | src/kernel/reqshim/reqshim_cmd.c:4-62 | the query gives the specified translation, with overflow of the physical sector refused |
| `ReqShimModule.ReqShim.LogdevCreate` | src/kernel/reqshim/reqshim_blk.c:301-395 | a device is created only under a valid, unused minor |
| `ReqShimModule.ReqShim.LogdevDestroy` | src/kernel/reqshim/reqshim_blk.c:397-433 | destroying a device clears its mappings with it |
| `HostKey.KeyCanonical` | src/user/controller/ssu_controller.cpp:268-317 | for accepted host lists the keys are equal exactly when the lists are permutations of each other |
| `HostKey.KeyIgnoresOrder` | src/user/controller/ssu_controller.cpp:268-317 | acceptance and key do not depend on the order of the hosts |
| `HostKey.AcceptedIff` | src/user/controller/ssu_controller.cpp:268-317 | a list is accepted exactly when it has at most 32 hosts, none empty or with a comma, and their names with commas between them fit 255 characters |
| `HostKey.JoinInjective` | src/user/controller/ssu_controller.cpp:247-266 | joining hosts without commas loses nothing |
| `HostKey.AscendingUnique` | src/user/controller/ssu_controller.cpp:299-308 | a sorted list is determined by its elements |
| `HostKey.SortInPlace` | src/user/controller/ssu_controller.cpp:299-308 | the in-place insertion sort computes the sorted permutation |
| `HostKey.BuildHostKey` | src/user/controller/ssu_controller.cpp:268-317 | the loops with their bounded buffer compute the key, or refuse exactly the lists that have none |
| `Grants.GrantedPieces` | src/user/controller/ssu_controller.cpp:739-817 | a granted allocation's rows, in table order, tile [0, size) with positive lengths on distinct SSUs and are the extents the caller is told |
| `Grants.RunKeepsRowsOk` | src/user/controller/ssu_controller.cpp:507-1063 | over every run: rows of an id agree on their attributes, a disk name has one id, an allocation has one extent per SSU, every used id is alloc-k below the counter |
| `Grants.IdsNeverReused` | src/user/controller/ssu_controller.cpp:450-472 | an id that was issued and is no longer active never names an allocation again in any run of fewer than 2^64 grants, remembered as released or not |
| `Grants.StepIssues` | src/user/controller/ssu_controller.cpp:823-824 | a step can bring only the counter's id to life |
| `Idempotence.NamedRequestIsIdempotent` | src/user/controller/ssu_controller.cpp:697-703 | repeating a granted named request with the hosts in any order, after any run that does not release it, changes nothing and returns the same id and extents exactly when the tenant fits 63 characters and the size is at least the disk count, else NS_EXISTS |
| `Repeats.SecondRequest` | src/user/controller/ssu_controller.cpp:581-649 | over any run that does not release a granted name, a second request for it, in order by itself, changes nothing; it gets the same id and extents, or the count its buffer lacks, exactly when size, hosts as a multiset, sharing, the first 63 characters of the tenant and a positive disk count are those of the first request, and is NS_EXISTS otherwise |
| `Repeats.RowsSameAsk` | src/user/controller/ssu_controller.cpp:596-622 | the comparison with the stored rows accepts exactly the requests that ask for the same as the one that was granted |
| `Repeats.GrantStoresTerms` | src/user/controller/ssu_controller.cpp:786-812 | a new grant's rows carry the request's name, sharing, hosts and the first 63 characters of its tenant, are a stripe of its size, and are the extents that the caller is told |
| `Repeats.GrantShowsHosts` | src/user/controller/ssu_controller.cpp:624-649 | every extent that a caller is told, of a new grant or an old one, names the host of its SSU |
| `RepeatRun.RepeatRefused` | src/user/controller/ssu_controller.cpp:596-622 | a run: after discovery a named request of any tenant of at least 64 characters is granted, and the same request again is NS_EXISTS and changes nothing |
| `Idempotence.RunKeepsGrant` | src/user/controller/ssu_controller.cpp:581-649 | no run changes the rows of an allocation that it does not release |
| `Idempotence.TakenNameChangesNothing` | src/user/controller/ssu_controller.cpp:697-703 | a request for a name in use changes no table; what it is answered is `Repeats.SecondRequest` |
| `Stripe.Tiles` | src/user/controller/ssu_controller.cpp:721-746 | extent i starts where extent i-1 ends, the last one ends at the size, and no extent is empty |
| `Stripe.SectorAligned` | src/user/plugin/reqshim_iface.cpp:228-254 | all offsets and lengths of a stripe are whole sectors exactly when 512 times the extent count divides the size |
| `MockState.NamespaceNumber` | src/user/plugin/reqshim_iface.cpp:97-125 | the number parsed from the tail of a namespace's name is the counter it was created under, and there is none once that exceeds 32 bits |
| `MockPlugin.Plugin.Create` | src/user/plugin/vendors/mock/ssu_plugin_mock.cpp:468-511 | a namespace is put in the first free slot under a fresh number |
| `MockPlugin.Plugin.Delete` | src/user/plugin/vendors/mock/ssu_plugin_mock.cpp:513-528 | the slot with that SSU and namespace is cleared, or none exists |
| `MockPlugin.Plugin.CollectMaps` | src/user/plugin/vendors/mock/ssu_plugin_mock.cpp:243-283 | the specs of an allocation's namespaces in slot order, or the error of the first SSU that does not connect |
| `MockPlugin.Plugin.MountDevice` | src/user/plugin/vendors/mock/ssu_plugin_mock.cpp:530-582 | the plugin's mount computes the specified step of plugin and kernel |
| `MockPlugin.Plugin.UnmountDevice` | src/user/plugin/vendors/mock/ssu_plugin_mock.cpp:584-628 | the plugin's unmount computes the specified step, stray paths included; `Unmounting.UnmountSucceedsIff` and `Unmounting.StrayOutcome` say when it succeeds |
| `MockPlugin.InsertIndex` | src/user/plugin/vendors/mock/ssu_plugin_mock.cpp:285-310 | the shifted insertion keeps the indexes sorted and distinct and adds exactly the new one, unless the buffer is full |
| `ControllerModule.Manager.RefreshPool` | src/user/controller/ssu_controller.cpp:507-562 | the two loops compute the specified refresh, or change nothing |
| `ControllerModule.Manager.NextAutoId` | src/user/controller/ssu_controller.cpp:462-472 | the search returns the first id not active or remembered, counting modulo 2^64, and ends |
| `ControllerModule.Manager.CopyExistingAllocation` | src/user/controller/ssu_controller.cpp:581-649 | the comparison and copy loops compute the specified answer, which `Repeats.RowsSameAsk` gives in terms of the two requests |
| `ControllerModule.Manager.AdmitRequest` | src/user/controller/ssu_controller.cpp:705-737 | the checks before placement compute the specified admission, which `Capacity.AllocGrantedIff` gives in numbers |
| `ControllerModule.Manager.PlaceExtents` | src/user/controller/ssu_controller.cpp:739-817 | the placement loop ends where the specification says, with the same tables, slots and extents |
| `ControllerModule.Manager.RollBackExtents` | src/user/controller/ssu_controller.cpp:826-841 | the rollback loop computes the specified compensation, ignoring refused deletes |
| `ControllerModule.Manager.Allocate` | src/user/controller/ssu_controller.cpp:651-846 | the whole operation computes the specified step of controller, plugin and kernel |
| `ControllerModule.Manager.ReleaseAllocation` | src/user/controller/ssu_controller.cpp:848-890 | the whole operation computes the specified step, stopping at a refused delete |
| `ControllerModule.Manager.MountAllocation` | src/user/controller/ssu_controller.cpp:920-1022 | the whole operation computes the specified step |
| `ControllerModule.Manager.UnmountDevice` | src/user/controller/ssu_controller.cpp:1024-1063 | the whole operation computes the specified step, whose outcome is `Unmounting.UnmountSucceedsIff` |
| `ApiModule.Service.RegisterRequestPath` | src/user/api/ssu_api.cpp:303-339 | the slot search and fill compute the specified cache update |
| `ApiModule.Service.RequestIdFromDevicePath` | src/user/api/ssu_api.cpp:493-527 | the four lookups in their order compute the specified answer and cache |
| `ApiModule.Service.AllocateResource` | src/user/api/ssu_api.cpp:529-581 | refresh, probe and allocation compute the specified step |
| `ApiModule.Service.AllocateInto` | src/user/api/ssu_api.cpp:529-580 | refresh and allocation into the caller's buffer compute the specified step |
| `ApiModule.Service.Allocate` | src/user/api/ssu_api.cpp:672-745 | the checks, the allocation and the registration, with release when the cache is full, compute the specified step |
| `ApiModule.Service.RegisterAllocation` | src/user/api/ssu_api.cpp:733-742 | registering a grant, or releasing a fresh one when the cache is full, computes the specified step |
| `ApiModule.Service.Free` | src/user/api/ssu_api.cpp:789-812 | release and forgetting compute the specified step, whose outcome is `ApiEffects.ApiFreeIff` |
| `ApiModule.Service.Mount` | src/user/api/ssu_api.cpp:871-903 | resolving, mounting and registering compute the specified step |
| `ApiModule.Service.AllocateResult` | src/user/api/ssu_api.cpp:828-869 | the status and device path of a request are the specified ones |
| `ApiModule.Service.Finish` | src/user/api/ssu_api.cpp:55-59 | every cache slot is free and the index counter is zero |
| `Decimal.ParsePrefixedU32` | src/user/api/ssu_api.cpp:132-166 | the digit loop accepts exactly a prefix followed by digits whose value fits 32 bits, and returns that value |
| `WireCommand.RoundTrip` | src/user/sdk/ubse_ssu_sdk.cpp:893-901 | for every request the SDK accepts, what the runtime decodes is its normal form: empty or dash user and name are none, the /dev/ssu/ prefix is stripped, no hosts is local; more than 32 hosts are refused |
| `WireCommand.SameLineSameMeaning` | src/user/sdk/ubse_ssu_sdk.cpp:893-901 | two accepted requests print the same line exactly when they have the same normal form |
| `WireCommand.SendsIff` | src/user/sdk/ubse_ssu_sdk.cpp:856-901 | the SDK sends exactly the requests with a size, safe tokens and lists that fit, and exactly this line: the command, size, sharing, disks, aggregate, user or dash, hosts or local, disk or dash |
| `WireCommand.SampleLine` | src/user/sdk/ubse_ssu_sdk.cpp:893-901 | one request and its line, character by character |
| `WireCommand.FieldsNeeded` | src/user/runtime/ssu_runtime.cpp:428-446 | fewer than six fields are malformed, a missing disk is a dash, and what follows the disk is ignored |
| `WireCommand.UnsignedRead` | src/user/runtime/ssu_runtime.cpp:460-463 | any unsigned field: white space, a sign and the digits up to the first other character, saturating at 2^64 - 1, a minus negating modulo 2^64 |
| `WireCommand.SignedRead` | src/user/runtime/ssu_runtime.cpp:460-463 | any signed field likewise, saturating at -2^63 and 2^63 - 1 |
| `WireCommand.SendAllocate` | src/user/runtime/ssu_runtime.cpp:426-478 | printing into a buffer and decoding it in place gives that normal form |
| `WireCommand.EncodeAllocate` | src/user/sdk/ubse_ssu_sdk.cpp:856-909 | the checks and buffers accept exactly the specified requests and print the specified line |
| `WireCommand.BuildHostList` | src/user/sdk/ubse_ssu_sdk.cpp:706-742 | the running print into 256 characters holds the comma-joined hosts, and fails exactly when a host is unsafe or the list does not fit |
| `WireCommand.NormalizeDiskName` | src/user/sdk/ubse_ssu_sdk.cpp:65-99 | NAME and /dev/ssu/NAME give the same token; anything else with a slash is refused |
| `WireCommand.TokenIsSafe` | src/user/sdk/ubse_ssu_sdk.cpp:48-63 | a token is safe exactly when it is not empty and has no blank |
| `WireCommand.HandleCommand` | src/user/runtime/ssu_runtime.cpp:660-691 | the buffer is cut at the line end and its first token selects the command |
| `WireCommand.HandleAllocate` | src/user/runtime/ssu_runtime.cpp:426-466 | cutting the buffer in place, field by field and then host by host, reads every field unharmed by the later cuts |
| `WireCommand.SplitHosts` | src/user/runtime/ssu_runtime.cpp:448-456 | the host loop returns all hosts, or stops at the 33rd |
| `CStrings.TokensJoin` | src/user/runtime/ssu_runtime.cpp:426-456 | cutting a joined list at its separator gives the list back |
| `CStrings.NextToken` | src/user/runtime/ssu_runtime.cpp:428-434 | one more strtok_r call keeps every token found before readable at its old position |
| `DataPlane.TranslateOffset` | src/user/dataplane/ssu_dataplane.cpp:16-68 | a range translates exactly when the device is named, the range lies in it, and the unbounded first and last byte fit 64 bits; the result is 512 times the physical sector plus the distance into the device row, as an off_t |
| `DataPlane.WriteRest` | src/user/dataplane/ssu_dataplane.cpp:76-91 | one pwrite puts a further piece of the buffer behind what is in place and touches nothing else |
| `DataPlane.WriteAll` | src/user/dataplane/ssu_dataplane.cpp:71-93 | whatever pwrite does, a prefix of the buffer is in place and no other byte has changed; success means all of it; only a failure or an empty write stops it |
| `DataPlane.ReadAll` | src/user/dataplane/ssu_dataplane.cpp:95-119 | whatever pread does, success means the buffer holds the file's bytes and zeros past its end, and no byte beyond the length is touched |
| `DataPlane.Write` | src/user/dataplane/ssu_dataplane.cpp:121-147 | translation, opening and writing: INVALID exactly when the range does not translate, IO when the file does not open, OK only with the whole buffer in the file from 512 times the physical sector plus the distance on, and no other byte changed in any case |
| `DataPlane.Read` | src/user/dataplane/ssu_dataplane.cpp:149-175 | the same for reading: OK only with the file's bytes from there in the buffer |
| `DataPlane.WriteThenRead` | src/user/dataplane/ssu_dataplane.cpp:121-175 | a completed write then read of the same range returns the buffer and leaves every byte of the file outside that physical range alone, whether or not the files open |

## Left out

- FIFO transport, poll loops, timeouts, audit logging, dlopen tables, signals and the other runtime commands: plumbing without state to prove things about.
- The lbc_mock plugin, its shell scripts and the samples: fork and exec, directory scans, configfs; the mock plugin has the same table logic.
- The bio, block-device, misc-device, gendisk, blk-mq and workqueue calls of the kernel module: submission is a record of (device, namespace, sector, page, offset, length), and creating a disk is a call that may fail without changing a table.
- Interleavings of the two kernel locks: every ioctl is one atomic step.
- The command-line tool and the scheduler: argument parsing and a one-branch gate.
- EC and replica placement: the code refuses both, and so does the model.
- NULL arguments, error-name tables and the error hint texts.
- Fixed-size string fields: names are unbounded strings except where a truncation changes a result (the tenant field, a mount's device path and the cached path).
- The policy and map-direction fields of a row: they always hold the same value.
- The 64-bit id and namespace counters are natural numbers printed modulo 2^64, and results about runs ask for fewer than 2^64 grants; sizes and sums are taken modulo 2^64 where the code compares them.
- The pool and the released ids are sequences rather than arrays with a count, and SSU names map to device names through one connection map per call.
- `SSU_QUERY_*` result arrays, `ssu_api_list`, and the physical-disk list of a result query: copies of rows that decide nothing.
- Running out of memory in the two-phase allocation (`src/user/api/ssu_api.cpp:567-571`).
- ControllerModule.Manager: health checks and discovery are parameters of a refresh, so a plugin whose answers depend on earlier calls within the same refresh is not modelled.
- EndToEnd.ReachableDevicesTranslate: runs in which the plugin refuses to delete the namespace of an active row are not covered, because the mock plugin never does (`Agreement.DeleteHitsTwin`).
- ReqShimIface.IssueMount: a MAP_DEL or LOGDEV_DESTROY ioctl of the rollback that itself fails, because its argument cannot be copied in, is not injected.
- ReqShimIface.UnmountLogdev: nor is such a failure of an unmount's ioctls.
- ControllerModule.Manager.MountAllocation: the controller's and the plugin's connect calls of one mount share one connection map, and all SSUs that do not connect give the same error.
- Storage.MountedReadBack: a block is addressed by device name and physical sector; a device error in the middle of a write is not followed further.
- DataPlane.WriteThenRead: closing the file is left out, and a file that does not exist yet is an empty image for both calls.
- ApiModule.Service.AllocateResult: the sorted list of physical extents that a result query also fills in is not modelled.
- Mounting.ReachableOneDeviceEach: the numbering of namespaces is the mock plugin's; for another plugin `Mounting.SecondMountIff` says what holds.
