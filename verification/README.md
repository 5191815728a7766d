# nativestor: verified models of the raw-device allocator and the volume-group reconciler

nativestor hands local block devices to Kubernetes volumes in two ways. The raw-device driver
gives out whole devices: a CSI controller picks a RawDevice object from a cache and commits the
choice with a versioned status update, while a daemon on every node creates, re-specs and
deletes those objects. The volume-group side groups devices with LVM: a job on every node drives
the groups towards a spec that changes over time, and records its outcome in a ConfigMap from
which the next run starts. This project models both and proves what they keep over all runs.

Part A, raw devices

- `RawDevices.dfy` and `ApiServer.dfy`: the objects and the server that stores them, with one
  version counter, optimistic locking and a status subresource. The class `ApiServer` is the
  mutable server, `World` its value; `World` also remembers every version ever stored (caches
  hold any of them) and the hand-outs and frees that committed.
- `Allocator.dfy`: GiB rounding on int64, best fit, largest free device, the three capacity
  figures, each as a loop proved against what it should compute.
- `Protocol.dfy`: any interleaving of controllers and daemons as a run of steps, each from an
  arbitrarily stale view; the invariants of all runs and the theorems that follow.
- `ControllerService.dfy` and `Discovery.dfy`: the controller's and the daemon's methods, each
  proved to take just such steps.

Part B, volume groups

- `Lvm.dfy`: LVM as a machine of physical volumes, groups and logical volumes. Any command may
  fail, and vgremove, vgreduce and pvremove destroy the logical volumes they touch, so that only
  the program's own guards protect them.
- `LvmCommands.dfy`: the guarded operations. `LvmReport.dfy`: the parser of LVM's output.
- `VgStatus.dfy`, `PrepareVg.dfy`, `LvmdConfig.dfy`: the status of a node, the reconciler and how
  it rewrites the lvmd configuration. `Passes.dfy`: a pass of the reconciler as a trace of states,
  one turn a class, and what any number of turns makes of the node. `Records.dfy`: what the records
  of a pass say of its classes and their devices. `ConfigHistory.dfy`: the
  lvmd key and the success classes' names over a history, as the replay of what was written.
- `Clean.dfy`: the clean-up job. `Node.dfy`: histories of one node (jobs with any specs, ConfigMap
  resets, clean-ups, the daemon's probes, users' logical volumes).

Around them: `ClusterStatus.dfy` (the two writers of the cluster's status), `Disks.dfy` (the two
device filters), `Finalizer.dfy` (removal from a slice while ranging over it).

## What holds only under a condition

- Commits on one RawDevice object always alternate between hand-out and free. By name, across
  re-creations of the object, they do if and only if the device is never handed out after a
  deletion hit its object while it was handed out (`Protocol.AlternatesByNameIff`). A daemon with
  a current view never makes such a deletion. After one, from any reachable state, a legal
  continuation hands the device out twice (`Protocol.DroppedCanBeReissued`);
  `Protocol.StaleDeleteHandsOutTwice` is the whole run from an empty server.
- Admission without a topology implies selection exactly for requests up to 2^63 - 2^30 bytes
  (`Protocol.AdmittedIsSelected`). Above that the GiB count overflows when it is shifted back: with
  one free device of any positive size admission passes and selection fails
  (`Allocator.OverflowAdmitsUnplaceable`).
- The lvmd key goes on naming every success class, whatever the specs. It names exactly those if and only if the last
  event that wrote it set the names right (`ConfigHistory.NamesAgreeIff`): a later job does so if
  it finds the key, whatever was wrong before, and without one if every name under which it made a
  group is still in use. If nothing fails, that is known before the job starts (`Passes.Outlook`,
  `Node.NodeState.ProvisionWithNodeStatus`). Specs that list no group twice always meet it
  (`ConfigHistory.DistinctKeepsNames`). In `Node.LeavesName` a spec that does list one twice leaves
  the name of a class that is no success.
- A name is listed twice in the key exactly when the last event that wrote it kept it twice
  (`ConfigHistory.NoDuplicatesIff`, with `LvmdConfig.KeptOnce`); again this is known beforehand if
  nothing fails. Histories that start right, list no group twice and give each class name one group
  have none (`ConfigHistory.DistinctKeepsOnce`); `Node.WritesTwice` is a run that has.
- A group is never recorded as a success and a failure, unless a first job made one that its spec
  lists twice (`Node.NodeState.ProvisionFirst` says exactly when).
- Devices recorded as online are physical volumes of their group unless a command was left half
  done or the outcome of a job could not be written, for any specs (`Node.NodeState.Run`).
- A pass changes nothing if and only if nothing can be done: if no query fails, it issues no
  command that could change LVM exactly when every class has all its devices and can give none up,
  or is no success and lists an unusable one, and no class that left the spec can be removed
  (`Passes.RunsThrough`, with `Passes.NothingToDo`). A second pass can have work even though the
  first went well: a class that lists no devices loses its group, and each pass from then on asks
  LVM for a group of no devices (`PrepareVg.EmptyClassActsAgain`; `Passes.PassSettles` says exactly
  when it has none).
- The clean-up loses no logical volume exactly when every spec device that holds one belongs to a
  spec group, if no command fails (`Clean.CleanVgs`). A device left in a group that the spec no
  longer names is not covered (`Clean.OldGroupIsNotCovered`), and a node gets there by a class that
  is renamed to another group while its old group is in use (`Node.RenamedGroupIsWiped`).
- The cluster's phase is computed before nodes without a ready class are demoted. It is Ready while
  no node is exactly when some node counts as ready and none that does has reported a ready class
  (`ClusterStatus.PhaseMisleadsIff`, `ClusterStatus.Cluster.CheckStatus`).
- The device filters agree except on loop devices and where a device's children differ between
  its listed and its kernel name (`Disks.FiltersAgreeIff`); `Disks.LoopDeviceSplitsFilters` is a
  device on which they differ.
- Slice removal is right exactly for lists with at most one occurrence, or with no two adjacent
  ones and another last element (`Finalizer.RemovesIff`); otherwise it skips one or panics
  (`Finalizer.TwiceGoesWrong`).

## Assumptions

The hash of node name and path is any injective, never empty function; node names hold no "/" and
paths start with one. Objects get fresh, never reused versions and uids. No logical volume appears
between a guard and the command it guards. LVM refuses to initialise a device that belongs to a
group, and to create a group that exists or has no devices. A failing vgreduce or pvremove may
have done part of its work; every other failing command has changed nothing. The ghost `Tally` of
a host counts failures, so that contracts can say what holds when nothing fails. Status and lvmd
list are written together or not at all, and read back as written. Map iteration is in any order.

## Model

| member | source | states |
|---|---|---|
| RawDevices.Wrap | driver/raw_device/controller.go:216 | int64 truncation: congruent modulo 2^64, and the identity exactly on int64 |
| ApiServers.ApiServer.ListByNode | driver/raw_device/controller.go:61-66 | exactly the stored objects with the node's label, each once |
| ApiServers.ApiServer.Create | pkg/operator/k8sutil/rawdevice.go:29-33 | the server's whole new state: a fresh object without status, or a refusal that changes nothing |
| ApiServers.ApiServer.Get | driver/raw_device/node.go:97 | the stored object of that name, or not found |
| ApiServers.ApiServer.Update | pkg/operator/k8sutil/rawdevice.go:15-24 | commits only on the stored version and leaves the status alone |
| ApiServers.ApiServer.UpdateStatus | driver/raw_device/controller.go:90-97 | commits only on the stored version and leaves the spec alone |
| ApiServers.ApiServer.Delete | pkg/operator/discover/discover.go:199-205 | removes by name whatever is stored there, without a version check |
| Allocator.ConvertRequestCapacity | driver/raw_device/controller.go:227-245 | which ranges are refused; else the least positive GiB count that covers the request |
| Allocator.ShiftBackIsExactIff | driver/raw_device/controller.go:216 | the count shifted back is free of overflow exactly up to 2^63 - 2^30 bytes |
| Allocator.BestFitIsUnique | driver/raw_device/controller.go:67-85 | "first of the smallest that fit, or none" determines the index |
| Allocator.BestFit | driver/raw_device/controller.go:67-85 | the first index of a minimum-size fitting device, -1 exactly when none fits |
| Allocator.ScanBestFit | driver/raw_device/controller.go:67-85 | the loop with 0 as "no size yet" finds the best fit, for requests of at least 1 GiB |
| Allocator.GetMaxCapacity | driver/raw_device/controller.go:38-57 | the size and node of the first of the largest free devices; no node exactly without a free device of positive size |
| Allocator.ByNode | driver/raw_device/controller.go:61-66 | selects exactly the devices whose node label has that value |
| Allocator.ByNodeKeepsOrder | driver/raw_device/controller.go:61-66 | in the order of the list |
| Allocator.AdmissionImpliesSelection | driver/raw_device/controller.go:167-177 | on one snapshot the scan succeeds on the admitted node if and only if the request is at most 2^63 - 2^30 |
| Allocator.OverflowAdmitsUnplaceable | driver/raw_device/controller.go:214-216 | above that bound: one free device of any positive size passes admission and is never selected |
| Allocator.GetCapacity | driver/raw_device/controller.go:386-417 | wrapped sum of free sizes, largest free size, and a minimum that bounds all free sizes but stays 0 when the first device is not free and no free size is negative |
| Allocator.AddFigures | driver/raw_device/controller.go:394-409 | one turn of that loop keeps the three figures right |
| Allocator.FreeBytesAdd | driver/raw_device/controller.go:394-398 | the free bytes of two lists add up |
| Allocator.NothingFree | driver/raw_device/controller.go:394-398 | without a free device there are none |
| Allocator.FreeBytesOfOne | driver/raw_device/controller.go:394-398 | one device counts with its size exactly if it has no volume and is available |
| Allocator.WrapAdds | driver/raw_device/controller.go:398 | wrapping sums step by step is wrapping the sum |
| Allocator.MaximumMeansPlaceable | driver/raw_device/controller.go:386-417 | g GiB can be placed on the node exactly when they are at most the advertised maximum |
| Allocator.ReplaceMovesFreeBytes | driver/raw_device/controller.go:394-398 | replacing one device moves the free bytes by the two devices' shares |
| Protocol.LastNamed | driver/raw_device/controller.go:253-264 | the last entry whose status carries the id, -1 exactly when there is none |
| Protocol.KeyIsInjective | pkg/operator/discover/discover.go:211-222 | node name and path can be read back from their concatenation |
| Protocol.SeenIsStored | driver/raw_device/controller.go:90-97 | a status update that passes the version check acts on the very object the caller saw, else nothing changes |
| Protocol.HandOutKeepsInv | driver/raw_device/controller.go:87-97 | a hand-out from any past version keeps the invariants |
| Protocol.TakeBackKeepsInv | driver/raw_device/controller.go:262-269 | so does a free |
| Protocol.CreateKeepsInv | pkg/operator/discover/discover.go:171-182 | so does the creation of a discovered object |
| Protocol.UpdateKeepsInv | pkg/operator/k8sutil/rawdevice.go:15-24 | so does the overwriting of a spec: name, label and spec go on agreeing about node and path |
| Protocol.StepKeepsInv | driver/raw_device/controller.go:59-105 | every step of every party keeps the invariants |
| Protocol.RunKeepsInv | driver/raw_device/controller.go:59-105 | so does every run |
| Protocol.CommitsAlternate | driver/raw_device/controller.go:70-97 | in every run, with caches as stale as can be, commits on one object strictly alternate, hand-out first |
| Protocol.FreeInBetween | driver/raw_device/controller.go:254-265 | alternation puts a free between any two hand-outs |
| Protocol.NoDoubleHandOut | driver/raw_device/controller.go:70-97 | in every run there is a free of the same object between two hand-outs |
| Protocol.CommitIsCurrent | driver/raw_device/controller.go:62-97 | a createVolume that commits took a device that had no volume, was available, labelled and, as all objects are keyed, specified for that node, and large enough in the server's state at commit time, the first of the smallest such in the view; it changed nothing else |
| Protocol.SelectsTheNode | driver/raw_device/controller.go:61-66 | on keyed objects selecting by label is selecting by the node of the spec |
| Protocol.UpdateSeenIsStored | pkg/operator/k8sutil/rawdevice.go:15-24 | a daemon's update acts on the very object it fetched, or changes nothing |
| Protocol.StoredDescribesItsDisk | pkg/operator/discover/discover.go:211-231 | in every reachable state each stored object has node, path, kind, uuid, numbers, availability and size of the disk last recorded under its name |
| Protocol.HandsOutUsableDisks | driver/raw_device/controller.go:59-105 | in every run, however stale the view, a device is only handed out if its disk was last recorded as available, on that node and large enough |
| Protocol.VolumeIsItsDevice | driver/raw_device/controller.go:253-287 | in every reachable state and for any cached view, however stale: the entries with a status name are exactly those of that name that show themselves handed out, at most one, and the lookup finds it |
| Protocol.CurrentVolumeIsStored | driver/raw_device/controller.go:253-287 | on a current listing the lookup by status equals a lookup by name in the server |
| Protocol.DaemonStepKeepsStatus | pkg/operator/k8sutil/rawdevice.go:11-27 | daemon steps commit nothing and, if deletions spare handed-out objects, keep who is handed out |
| Protocol.NamedStep | pkg/operator/discover/discover.go:184-209 | such a step keeps the accounts by name |
| Protocol.BusyDeleteBreaksAccounts | pkg/operator/discover/discover.go:199-205 | deleting a handed-out object breaks them |
| Protocol.AccountedIff | pkg/operator/discover/discover.go:184-209 | the accounts by name, with who is handed out now, stay right all along a run if and only if no deletion hits a handed-out object |
| Protocol.CurrentDeletesSpare | pkg/operator/discover/discover.go:184-209 | a daemon that sees the stored object never does that |
| Protocol.NamesAlternate | pkg/operator/discover/discover.go:184-209 | then the alternation extends across re-creations of the object |
| Protocol.StepOnName | driver/raw_device/controller.go:59-105 | what any step does to the commits under one name and to whether its object is handed out |
| Protocol.AlternatesByNameIff | pkg/operator/discover/discover.go:184-209 | in every legal run and for each name: the commits alternate if and only if no hand-out of the name follows a deletion that hit it while handed out |
| Protocol.DroppedCanBeReissued | pkg/operator/discover/discover.go:171-209 | from any reachable state: after such a deletion some legal continuation breaks the alternation |
| Protocol.StaleDeleteHandsOutTwice | pkg/operator/discover/discover.go:184-209 | for every node and disk, a legal run in which a stale view breaks it |
| Protocol.AdmittedIsSelected | driver/raw_device/controller.go:38-85 | over all runs and snapshots: admitted requests are placed, exactly up to 2^63 - 2^30 bytes |
| Protocol.CommitMovesFreeBytes | driver/raw_device/controller.go:386-417 | a committed allocation takes exactly its device's size off the free bytes, and freeing a still available device puts it back |
| Protocol.CommitMovesFigure | driver/raw_device/controller.go:386-417 | the reported figure moves likewise in int64 |
| ControllerService.RoundingBounds | driver/raw_device/controller.go:214-216 | whole GiB, at least the request and less than one GiB above it |
| ControllerService.CommitIsPlacement | driver/raw_device/controller.go:59-105 | a commit is a placement: requiredBytes <= CapacityBytes <= the device's size |
| ControllerService.Controller.constructor | driver/raw_device/controller.go:25-36 | the controller's server |
| ControllerService.Controller.FindNode | driver/raw_device/controller.go:179-192 | the first segment that names a node |
| ControllerService.Controller.Allocate | driver/raw_device/controller.go:59-105 | takes just one step of the protocol, and fails without a trace |
| ControllerService.Controller.CommitStatus | driver/raw_device/controller.go:90-97 | succeeds exactly when the cached object is the stored one, and then commits that |
| ControllerService.Controller.Admit | driver/raw_device/controller.go:107-201 | every refusal with its code and exact condition, and the node and count of what is let through, exactly when the request passes all checks |
| ControllerService.Controller.CreateVolume | driver/raw_device/controller.go:107-225 | success exactly for an admitted request whose best fit is stored as the view shows it, on one current snapshot exactly for admitted requests up to 2^63 - 2^30 bytes; then a device without volume, available, specified for the answered node and large enough is handed out, and that node is the asked one or, without a topology, that of the largest free device; an error changes nothing |
| ControllerService.AdmittedIsTheNode | driver/raw_device/controller.go:150-192 | the admitted node is the preferred, else the requisite one, or that of the largest free device |
| ControllerService.Controller.Place | driver/raw_device/controller.go:203-225 | success is a placement on that node, and an error changes nothing |
| ControllerService.CurrentViewIsSendable | driver/raw_device/controller.go:59-105 | with a current view that is so exactly when a fitting free device is on the node |
| ControllerService.OneSnapshotIsSendable | driver/raw_device/controller.go:107-225 | one current snapshot for admission and selection: what is admitted is placed exactly up to 2^63 - 2^30 bytes |
| ControllerService.Controller.FindVolume | driver/raw_device/controller.go:253-262 | the loop is the last-match lookup |
| ControllerService.Controller.DeleteVolume | driver/raw_device/controller.go:247-310 | frees exactly the device of that id; not found exactly when the view has none; errors change nothing |
| ControllerService.Controller.GetVolume | driver/raw_device/controller.go:272-289 | the volume's device, or not found |
| ControllerService.Controller.NodeResolve | driver/raw_device/node.go:97-101 | while a volume is handed out, its id resolves to the device that carries it, whose last commit is a hand-out |
| ControllerService.Controller.GetCapacity | driver/raw_device/controller.go:346-384 | the figures of the devices labelled for the topology's node, all 0 if none is free; the maximum is the size of a free one there; g GiB can be placed exactly up to it; the minimum exceeds no free size |
| Discovery.DesiredIsLast | pkg/operator/discover/discover.go:171-231 | a wanted object has the converted spec of the last disk of its name |
| Discovery.SyncIsRun | pkg/operator/k8sutil/rawdevice.go:11-27 | create-or-update is one step of the protocol |
| Discovery.SyncAllIsRun | pkg/operator/discover/discover.go:171-182 | the loop over the disks is a run |
| Discovery.SweepIsRun | pkg/operator/discover/discover.go:184-209 | so are the deletions, and on a current listing they spare what is handed out |
| Discovery.SweepEffect | pkg/operator/discover/discover.go:184-209 | exactly the listed free objects without a disk go, the rest stays as it was |
| Discovery.SweptReplyIs | pkg/operator/discover/discover.go:184-209 | the reply is that of the last deletion only: an earlier failure is forgotten |
| Discovery.SyncAllEffect | pkg/operator/discover/discover.go:171-182 | every disk gets its object with the converted spec, statuses and other objects stay |
| Discovery.PassMirrors | pkg/operator/discover/discover.go:171-209 | after a pass the node's objects are the disks found and the vanished ones still handed out |
| Discovery.MirrorsShown | pkg/operator/discover/discover.go:171-231 | then each object of a found disk has just that disk's node, path, kind, uuid, numbers, availability and size; objects of other nodes stay; vanished ones stay exactly if handed out; statuses stay |
| Discovery.SecondPassChangesNothing | pkg/operator/discover/discover.go:171-209 | a second pass over the same disks changes nothing but versions |
| Discovery.PassKeepsAllocations | pkg/operator/discover/discover.go:184-209 | no handed-out device goes, and its status and identity stay |
| Discovery.DeviceManager.constructor | pkg/operator/discover/discover.go:67-77 | the daemon's server, node and hash |
| Discovery.DeviceManager.CreateOrUpdateRawDevice | pkg/operator/k8sutil/rawdevice.go:11-27 | the server's new state; the reply is that of the creation even after a successful update |
| Discovery.DeviceManager.CheckRawDeviceDeleted | pkg/operator/discover/discover.go:184-209 | the server's new state and the reply, for any listing, stale or not |
| Discovery.DeviceManager.CreateOrUpdateAll | pkg/operator/discover/discover.go:171-182 | the server's new state after all disks |
| Discovery.DeviceManager.Pass | pkg/operator/discover/discover.go:171-209 | a pass with a current listing shows the disks found, in the fields of the disks, leaves other nodes and all statuses alone, keeps the invariants, and is a run whose deletions are current |
| Lvm.NothingLostIff | pkg/util/sys/lvm.go:130-189 | taking physical volumes away loses nothing exactly when none of them holds a logical volume |
| Lvm.VgHasLvIff | pkg/util/sys/lvm.go:109-123 | a group holds a logical volume exactly when one of its physical volumes does |
| Lvm.GuardedReduce | pkg/util/sys/lvm.go:161-189 | guarded, vgreduce and vgremove only free physical volumes |
| Lvm.GuardedRemove | pkg/util/sys/lvm.go:125-128 | guarded, pvremove only drops physical volumes |
| LvmCommands.GetVolumeGroups | pkg/util/sys/lvm.go:60-75 | exactly the groups that exist |
| LvmCommands.GetPhysicalVolume | pkg/util/sys/lvm.go:77-91 | exactly the group's physical volumes; fails on an existing group only by a fault |
| LvmCommands.SomeLvName | pkg/util/sys/lvm.go:100-106 | true exactly when some row names a logical volume |
| LvmCommands.CheckPvHasLogicalVolume | pkg/util/sys/lvm.go:93-107 | the truth about the physical volume whenever it answers |
| LvmCommands.CheckVgHasLogicalVolume | pkg/util/sys/lvm.go:109-123 | the truth about the group whenever it answers |
| LvmCommands.RemoveEach | pkg/util/sys/lvm.go:150-156 | drops the group's physical volumes one by one and stops at a failure |
| LvmCommands.RemoveVolumeGroup | pkg/util/sys/lvm.go:130-159 | loses no logical volume; success removes the group and its physical volumes; a group that holds something stays untouched |
| LvmCommands.ShrinkVolumeGroup | pkg/util/sys/lvm.go:161-189 | loses no logical volume; all or nothing unless a command is left half done; refused while one of the devices holds something |
| LvmCommands.CreateVolumeGroup | pkg/util/sys/lvm.go:225-242 | success makes a new group of just those devices; other groups stay |
| LvmCommands.ExpandVolumeGroup | pkg/util/sys/lvm.go:191-199 | success adds just those devices; other groups stay |
| LvmReport.SplitJoin | pkg/util/sys/lvm.go:265-295 | splitting undoes joining of parts without the separator |
| LvmReport.FieldParses | pkg/util/sys/lvm.go:281-292 | an LVM2_KEY='value' token adds that key and value |
| LvmReport.LineParses | pkg/util/sys/lvm.go:278-295 | a line with a row's fields in any order and any extra spaces parses to that row |
| LvmReport.ParsesBack | pkg/util/sys/lvm.go:265-295 | parsing what LVM writes for a list of rows, with any empty lines, gives back those rows |
| LvmReport.ParseOneLine | pkg/util/sys/lvm.go:278-295 | the loop computes the specified row, or panics where the specification does |
| LvmReport.ParseLines | pkg/util/sys/lvm.go:265-276 | the loop computes the specified rows |
| LvmReport.HasLogicalVolume | pkg/util/sys/lvm.go:93-123 | on LVM's output for some rows: true exactly when one of them has a non-empty lv_name |
| VgStatus.ClassesRoundTrip | pkg/operator/topolvm/volumegroup/preparevg.go:191-199 | the map of classes written as a list in any order is read back as it was |
| VgStatus.NameMapKeys | pkg/operator/topolvm/volumegroup/preparevg.go:191-199 | exactly the listed groups are keys, each with some listed class of that group |
| VgStatus.NameMapIsLast | pkg/operator/topolvm/volumegroup/preparevg.go:191-199 | that is the last one listed |
| VgStatus.DefaultsFromLast | pkg/operator/topolvm/volumegroup/preparevg.go:598-604 | an entry takes its default flag from the last spec class of its name |
| VgStatus.DefaultsKeepOthers | pkg/operator/topolvm/volumegroup/preparevg.go:598-604 | an entry whose name no spec class has stays as it is |
| VgStatus.MarkedTells | pkg/operator/topolvm/volumegroup/preparevg.go:485-509 | noting devices sets the first state of each name or adds one, and leaves the others |
| VgStatus.LvmdNamesIff | pkg/operator/topolvm/volumegroup/preparevg.go:585-636 | exactly when a rewrite of the lvmd list makes it name the success classes |
| Passes.ExpandedStaysOnline | pkg/operator/topolvm/volumegroup/preparevg.go:414-425 | an expansion keeps every online device a physical volume of the group |
| Passes.AdjustIsTurn | pkg/operator/topolvm/volumegroup/preparevg.go:297-308 | expanding and then shrinking a group has the effects a class's turn may have, and issues commands exactly when something can be done |
| Passes.AttemptIsTurn | pkg/operator/topolvm/volumegroup/preparevg.go:483-583 | so does creating or retrying a class |
| Passes.TurnsAreSteady | pkg/operator/topolvm/volumegroup/preparevg.go:295-324 | any turns of any spec: no logical volume goes, classes stay under their groups, online devices stay unless a command is left half done |
| Passes.TurnsTouchTheirGroups | pkg/operator/topolvm/volumegroup/preparevg.go:295-324 | groups and entries that no class names stay as they are |
| Passes.TurnsName | pkg/operator/topolvm/volumegroup/preparevg.go:295-324 | any turns of any spec: a success has its name from before or from a class that became successful |
| Passes.TurnsReach | pkg/operator/topolvm/volumegroup/preparevg.go:295-324 | with distinct groups: each class is in a map, unless its group was removed |
| Passes.TurnsArrive | pkg/operator/topolvm/volumegroup/preparevg.go:295-324 | with distinct groups: each success that could converge has just its devices |
| Passes.TurnsRenew | pkg/operator/topolvm/volumegroup/preparevg.go:295-324 | with distinct groups: those collected are new successes under their names, and old ones keep theirs |
| Passes.TurnsAreUseful | pkg/operator/topolvm/volumegroup/preparevg.go:295-324 | any turns of any spec, with working queries: no mutating command exactly when nothing can be done about any class |
| Passes.RunsThrough | pkg/operator/topolvm/volumegroup/preparevg.go:280-344 | turns and deletions make a pass over any spec: what stays, disjoint maps stay disjoint, a mutating command is issued if and only if something can be done, and a settled node stays as it is |
| Passes.PassDone | pkg/operator/topolvm/volumegroup/preparevg.go:280-344 | over distinct groups each class is also filed unless its group was removed, the new classes are exactly the new successes, and what could converge did |
| Passes.PassSettles | pkg/operator/topolvm/volumegroup/preparevg.go:380-481 | after a pass without failures that could converge, a second one has nothing to do if and only if each class is a success or lists an unusable disk |
| Passes.EmptyClassIsNeverQuiet | pkg/operator/topolvm/volumegroup/preparevg.go:534-565 | a class without devices that is no success always leads to a command |
| Passes.TurnsAsForeseen | pkg/operator/topolvm/volumegroup/preparevg.go:295-324 | turns of any spec from any state without failures: exactly the successes with their names, and the classes that became one |
| Passes.PassAsForeseen | pkg/operator/topolvm/volumegroup/preparevg.go:280-344 | so does a whole pass: what it leaves and made is a function of the node, the spec and the disks |
| Passes.FirstTurnsName | pkg/operator/topolvm/volumegroup/preparevg.go:218-231 | any spec: the successes of a first pass are exactly those collected |
| Passes.FirstTurnsMake | pkg/operator/topolvm/volumegroup/preparevg.go:218-231 | distinct groups: a success has just its devices; one that could be made is, unless a command failed |
| Passes.FirstPassDone | pkg/operator/topolvm/volumegroup/preparevg.go:201-278 | what a first pass achieves on any spec, with the two maps disjoint exactly unless a success is listed twice; on one of distinct groups it makes what it can |
| Records.NotCreatedEnters | pkg/operator/topolvm/volumegroup/preparevg.go:534-583 | a first failure says that a command failed, or names exactly the devices that are no available disks, as offline |
| Records.NotedEnters | pkg/operator/topolvm/volumegroup/preparevg.go:483-522 | a repeated failure notes exactly the devices that are no available disks and keeps the rest |
| Records.AdjustEnters | pkg/operator/topolvm/volumegroup/preparevg.go:297-308 | an adjusted success keeps name and state and has every new physical volume recorded as online |
| Records.EntriesMakeReady | pkg/operator/topolvm/volumegroup/preparevg.go:295-324 | any spec: a class that became successful is recorded as ready as long as it is a success |
| Records.PassRecords | pkg/operator/topolvm/volumegroup/preparevg.go:280-344 | so does a whole pass; with distinct groups each class has just the record that goes with what became of it |
| Records.FirstPassRecords | pkg/operator/topolvm/volumegroup/preparevg.go:201-278 | after a first pass every success is ready with its devices online, no failure is ready, and each says why |
| PrepareVg.Reconciler.constructor | pkg/operator/topolvm/volumegroup/preparevg.go:63-71 | the job's host, spec and maps |
| PrepareVg.Reconciler.InitPv | pkg/operator/topolvm/volumegroup/preparevg.go:400-412 | one pvcreate; a failure leaves a warning and one error state |
| PrepareVg.Reconciler.InitNewPvs | pkg/operator/topolvm/volumegroup/preparevg.go:389-412 | pvcreate for exactly the devices not in the group; failures are recorded as such |
| PrepareVg.Reconciler.CheckVgIfExpand | pkg/operator/topolvm/volumegroup/preparevg.go:380-428 | only spec devices join and each is recorded as online; without faults all join; mutating commands exactly when a device of an existing group is missing |
| PrepareVg.Reconciler.Extend | pkg/operator/topolvm/volumegroup/preparevg.go:414-425 | the devices join and are recorded as online, or only a message is left |
| PrepareVg.Reconciler.DropState | pkg/operator/topolvm/volumegroup/preparevg.go:470-477 | the deletion loop with its index stepping back removes exactly the states of that name |
| PrepareVg.Reconciler.Extra | pkg/operator/topolvm/volumegroup/preparevg.go:439-452 | exactly the physical volumes the class no longer lists |
| PrepareVg.Reconciler.RemoveWhole | pkg/operator/topolvm/volumegroup/preparevg.go:454-462 | the group goes with its entry, or stays with a message; never while it holds something |
| PrepareVg.Reconciler.ReducePart | pkg/operator/topolvm/volumegroup/preparevg.go:464-478 | the devices go with their states, or stay with a message; never while one holds something |
| PrepareVg.Reconciler.CheckVgIfShrink | pkg/operator/topolvm/volumegroup/preparevg.go:430-481 | only unlisted devices leave; online devices stay in the group; without faults exactly what is left where; mutating commands exactly when there is something to give up and none of it holds a logical volume |
| PrepareVg.Reconciler.ExpandAndShrink | pkg/operator/topolvm/volumegroup/preparevg.go:297-308 | the class's group follows the spec, as a turn; if it can converge, it ends with just the spec's devices, or goes with its entry when there are none |
| PrepareVg.Reconciler.CreateVg | pkg/operator/topolvm/volumegroup/preparevg.go:534-583 | a new group of available disks with all of them online, or a failure entry that says why |
| PrepareVg.Reconciler.CreateVgRetry | pkg/operator/topolvm/volumegroup/preparevg.go:483-522 | success moves the class over without device states; failure notes the unusable devices |
| PrepareVg.Reconciler.MarkUnusable | pkg/operator/topolvm/volumegroup/preparevg.go:485-509 | the noted devices are exactly the missing ones, over their old state if there is one |
| PrepareVg.Reconciler.FindState | pkg/operator/topolvm/volumegroup/preparevg.go:524-532 | the first state of that name, or none |
| PrepareVg.Reconciler.DeleteSuccesses | pkg/operator/topolvm/volumegroup/preparevg.go:346-362 | exactly the classes that left the spec are forgotten; their groups go unless they hold something or a command fails; mutating commands exactly when one can go |
| PrepareVg.Reconciler.CheckVgIfDelete | pkg/operator/topolvm/volumegroup/preparevg.go:346-378 | the same for both maps; the groups of the spec stay |
| PrepareVg.Reconciler.ReconcileClass | pkg/operator/topolvm/volumegroup/preparevg.go:295-324 | one class's turn touches only its own group and entries, with the outcome Turn states and the records Entered states |
| PrepareVg.Reconciler.ReconcileAll | pkg/operator/topolvm/volumegroup/preparevg.go:295-324 | a turn for each class, in order, whatever the spec; the new classes are those picked |
| PrepareVg.Reconciler.Reconcile | pkg/operator/topolvm/volumegroup/preparevg.go:280-344 | any spec: no logical volume is lost, online devices stay, names have their source, foreign groups stay, disjoint maps stay so, mutating commands are issued if and only if something can be done, a settled node stays; distinct groups: complete maps, sucVgs are exactly the new successes, what could converge did |
| PrepareVg.Reconciler.FirstClass | pkg/operator/topolvm/volumegroup/preparevg.go:218-231 | an existing group only yields a failure entry without a group name |
| PrepareVg.Reconciler.FirstPass | pkg/operator/topolvm/volumegroup/preparevg.go:201-278 | any spec: no logical volume is lost, existing groups stay, every class is filed, once unless a success is listed twice, the successes are exactly those collected and online; distinct groups: made unless a command failed or the group existed |
| PrepareVg.EmptyClassActsAgain | pkg/operator/topolvm/volumegroup/preparevg.go:454-565 | two passes over a success that lists no devices: the second issues a mutating command |
| LvmdConfig.ApplyDefaults | pkg/operator/topolvm/volumegroup/preparevg.go:598-604 | the loops compute WithDefaults, of which VgStatus.DefaultsFromLast and DefaultsKeepOthers say which class decides |
| LvmdConfig.Prune | pkg/operator/topolvm/volumegroup/preparevg.go:615-627 | the in-place deletion keeps exactly the entries that a success class bears |
| LvmdConfig.CreateLvmdConf | pkg/operator/topolvm/volumegroup/preparevg.go:672-696 | one entry for each new class with its settings; without any, the key stays as it is |
| LvmdConfig.UpdateLvmdConf | pkg/operator/topolvm/volumegroup/preparevg.go:585-636 | the key lists exactly the old entries, with the spec's default flags, and the new classes' that bear a success name; an absent key is created with the new classes alone |
| LvmdConfig.ListOf | pkg/operator/topolvm/volumegroup/preparevg.go:647-670 | each class of the map once, in some order |
| LvmdConfig.RewriteNamesIff | pkg/operator/topolvm/volumegroup/preparevg.go:585-636 | a rewrite goes on naming what is left; exactly that with a key, and without one exactly if all new names are left |
| LvmdConfig.RewriteOnceIff | pkg/operator/topolvm/volumegroup/preparevg.go:585-636 | exactly when a rewrite of the key, whatever it was, lists no name twice |
| LvmdConfig.RewriteMatches | pkg/operator/topolvm/volumegroup/preparevg.go:585-636 | a rewrite keeps each entry with the group that goes with its name |
| LvmdConfig.RewriteLists | pkg/operator/topolvm/volumegroup/preparevg.go:585-636 | a rewrite of the key, entry by entry: the old ones with the last default flag of their name and one with the settings of each new class, exactly those of success names |
| LvmdConfig.FailuresReadBack | pkg/operator/topolvm/volumegroup/preparevg.go:191-199 | failures read back name no group they did not have, but for the empty name |
| LvmdConfig.ApartReadsBack | pkg/operator/topolvm/volumegroup/preparevg.go:191-199 | disjoint maps are read back as such, and failures under their own groups are not lost |
| ConfigHistory.NamesAgreeIff | pkg/operator/topolvm/volumegroup/preparevg.go:201-696 | over every history of any specs the key names every success class, and exactly those if and only if the last event that wrote set the names right |
| ConfigHistory.CleanJobIff | pkg/operator/topolvm/volumegroup/preparevg.go:280-344 | for a later job without failures both conditions are known from the node, the spec and the disks before it starts |
| ConfigHistory.NoDuplicatesIff | pkg/operator/topolvm/volumegroup/preparevg.go:201-696 | over every history no name is listed twice if and only if the last event that wrote kept each once |
| ConfigHistory.HistoryMatches | pkg/operator/topolvm/volumegroup/preparevg.go:201-696 | over every history entries and successes have the groups of their names if all specs give classes those groups |
| ConfigHistory.DistinctKeepsNames | pkg/operator/topolvm/volumegroup/preparevg.go:201-696 | histories whose specs list no group twice keep the names right |
| ConfigHistory.DistinctKeepsOnce | pkg/operator/topolvm/volumegroup/preparevg.go:201-696 | and, if classes also have the groups of their names, free of duplicates |
| ConfigHistory.OnOffOutlook | pkg/operator/topolvm/volumegroup/preparevg.go:295-344 | what a pass makes of a class listed with, without and with its devices |
| Node.ChecksKeepFiling | pkg/operator/discover/discover.go:353-406 | the daemon's verdicts stay filed under the same groups |
| Node.ChecksKeepInvariants | pkg/operator/discover/discover.go:353-406 | they keep the keys and the names of the classes and restore that online devices are physical volumes |
| Node.NodeState.RunPass | pkg/operator/topolvm/volumegroup/preparevg.go:90-189 | any spec: no logical volume is lost, online devices and groups in use outside the spec stay, disjoint maps stay so; what it asks to write follows from the key, the names before, and the classes it made |
| Node.NodeState.ReconcileFrom | pkg/operator/topolvm/volumegroup/preparevg.go:280-344 | the reconciling pass as a node sees it, without the lvmd key; new successes are recorded as ready |
| Node.NodeState.RunFirstPass | pkg/operator/topolvm/volumegroup/preparevg.go:201-278 | any spec: existing groups stay; what it asks to write are the classes it made, all of available disks; the maps are disjoint exactly unless it made a group listed twice; without failures a spec of distinct groups is made in full |
| Node.NodeState.CreateFrom | pkg/operator/topolvm/volumegroup/preparevg.go:201-278 | the first pass as a node sees it, without the lvmd key; successes are ready, failures are not |
| Node.NodeState.CleanNode | pkg/operator/topolvm/clean/clean.go:31-38 | the same as an event of the node: which of its users' logical volumes survive |
| Node.NodeState.Write | pkg/operator/topolvm/volumegroup/preparevg.go:647-670 | both keys are written and read back as they were, or nothing is |
| Node.NodeState.ProvisionWithNodeStatus | pkg/operator/topolvm/volumegroup/preparevg.go:280-344 | for any spec: logical volumes, online devices, groups in use, disjoint maps; the key goes on naming every success; a job that finds the key sets the names right, and without failures the outcome of names and duplicates is known before |
| Node.NodeState.ProvisionFirst | pkg/operator/topolvm/volumegroup/preparevg.go:201-278 | a first pass, for any spec; existing groups stay, what can be made is, and no group is a success and a failure exactly unless a made one is listed twice |
| Node.NodeState.ProvisionNode | pkg/operator/topolvm/volumegroup/preparevg.go:90-189 | a job picks by whether a status is recorded, keeps what both keep, and stores the classes it made as ready |
| Node.NodeState.CheckDeviceClass | pkg/operator/discover/discover.go:353-406 | all recorded classes get their verdict or none; no command changes LVM |
| Node.NodeState.CheckOne | pkg/operator/discover/discover.go:371-390 | Ready exactly when every recorded device is a physical volume, else UnReady; exactly the others go offline |
| Node.NodeState.CleanLvmdConfigmap | pkg/operator/topolvm/controller/topolvmcluster_controller.go:515-531 | both keys go |
| Node.NodeState.Happen | pkg/operator/topolvm/volumegroup/preparevg.go:90-189 | any one event keeps all of it, and writes what it can write; logical volumes go only by their user or an exposed clean-up |
| Node.NodeState.Run | pkg/operator/topolvm/volumegroup/preparevg.go:201-696 | over every history of any specs: no logical volume is lost that its user did not remove, unless a clean-up was exposed; online devices stay physical volumes; success and failure groups stay disjoint unless a first job crosses them; the lvmd names, their groups and duplicates exactly as the last write left them |
| Node.LogHasConsequences | pkg/operator/topolvm/volumegroup/preparevg.go:201-696 | what the log of a history means for the lvmd configuration |
| Node.LeavesName | pkg/operator/topolvm/volumegroup/preparevg.go:90-189 | from a node without ConfigMap: two jobs after which the key names a class that is no success |
| Node.WritesTwice | pkg/operator/topolvm/volumegroup/preparevg.go:90-189 | from a node without ConfigMap: two jobs after which the key has a class twice |
| Node.RenamedGroupIsWiped | pkg/operator/topolvm/clean/clean.go:64-87 | a history in which a logical volume is lost to a clean-up: a class renamed to another group while its old group is in use |
| Clean.GetVgInfo | pkg/operator/topolvm/clean/clean.go:40-62 | exactly the groups and devices the spec lists for the node |
| Clean.SpecIsListed | pkg/operator/topolvm/clean/clean.go:40-62 | a device is listed exactly if some entry for that node has a class with it, and so for groups, with the cluster's own |
| Clean.CleanGroups | pkg/operator/topolvm/clean/clean.go:66-77 | no logical volume is lost; empty groups go, others stay; what is left to wipe is exactly what no spec group had, if every listing works |
| Clean.CleanPvs | pkg/operator/topolvm/clean/clean.go:79-84 | wipes the rest, going on after a failure |
| Clean.CleanVgs | pkg/operator/topolvm/clean/clean.go:64-87 | nothing is lost if spec devices in use belong to spec groups and listing them works; without failures that is also necessary |
| Clean.SafeIsSpared | pkg/operator/topolvm/clean/clean.go:64-87 | a logical volume sits on nothing that is wiped exactly if its group is listed for the node or none of its devices is |
| Clean.Start | pkg/operator/topolvm/clean/clean.go:31-38 | a logical volume none of whose devices is listed for the node survives, whatever fails; one whose group is, if the listings work; without failures exactly those survive |
| Clean.OldGroupIsNotCovered | pkg/operator/topolvm/clean/clean.go:64-87 | a device in a group the spec no longer names is not covered, and its logical volume goes |
| ClusterStatus.JudgePod | pkg/operator/topolvm/monitor/status.go:120-152 | ready, failed or pending exactly as the pod is, with all containers ready; unknown otherwise |
| ClusterStatus.NodesStatus | pkg/operator/topolvm/monitor/status.go:111-190 | for exactly the cluster's nodes: ready, failed or pending exactly if the last pod is so with all containers ready and the readiness is not unknown |
| ClusterStatus.HealthTells | pkg/operator/topolvm/monitor/status.go:111-190 | the same of the map it computes |
| ClusterStatus.SetPhase | pkg/operator/topolvm/monitor/status.go:194-207 | sets a node's phase, or appends a bare entry for it |
| ClusterStatus.MergeStep | pkg/operator/topolvm/monitor/status.go:193-208 | one node more is merged, whatever the order |
| ClusterStatus.Merge | pkg/operator/topolvm/monitor/status.go:192-208 | known entries change only in phase; each unknown node gets one bare entry |
| ClusterStatus.Judge | pkg/operator/topolvm/monitor/status.go:210-244 | nodes without a ready class become unknown; the cluster's phase looks at the nodes before that |
| ClusterStatus.MergedIsRechecked | pkg/operator/topolvm/monitor/status.go:192-244 | after a check entries without a ready class are unknown, listed nodes have the phase seen, the others theirs, and each listed node has an entry |
| ClusterStatus.MergedPhaseTells | pkg/operator/topolvm/monitor/status.go:210-244 | the cluster is ready exactly if a listed node is seen as ready or an unlisted one counted so, and failed otherwise |
| ClusterStatus.RecheckedByReports | pkg/operator/topolvm/monitor/status.go:192-244 | a listed node is ready exactly if seen so and with a ready class in its last report |
| ClusterStatus.ReadyWithoutReadyNode | pkg/operator/topolvm/monitor/status.go:210-244 | a case in which it does not |
| ClusterStatus.MergedHealth | pkg/operator/topolvm/monitor/status.go:192-208 | after the merge an entry is ready exactly if its node is healthy by the old entries and the sight, and has the classes of its last report |
| ClusterStatus.PhaseMisleadsIff | pkg/operator/topolvm/monitor/status.go:192-244 | exactly when, by the old entries, the reports and the sight, the cluster is ready while no node is |
| ClusterStatus.ReportKeepsFaithful | pkg/operator/topolvm/controller/topolvmcluster_controller.go:320-333 | a written report is its node's one entry from then on |
| ClusterStatus.CheckKeepsFaithful | pkg/operator/topolvm/monitor/status.go:192-251 | a written check changes no classes and adds no second entry |
| ClusterStatus.Cluster.UpdateStatus | pkg/operator/topolvm/controller/topolvmcluster_controller.go:305-341 | the node's first entry is replaced, or one is appended |
| ClusterStatus.Cluster.CheckStatus | pkg/operator/topolvm/monitor/status.go:68-260 | what is written is what was seen of pods and nodes, by listed node and for the cluster, and misleads exactly as PhaseMisleadsIff says; or nothing changes |
| ClusterStatus.Cluster.Run | pkg/operator/topolvm/controller/topolvmcluster_controller.go:305-341 | over every interleaving: one entry a node, with the classes and loops of its last written report |
| Disks.DiscoverDevices | pkg/util/sys/disks.go:150-196 | the loop lists the devices that can be read, without parents if asked so |
| Disks.GetAllDevices | pkg/util/sys/disks.go:34-108 | the loop gives every discovered device its verdict; exactly which are available, by the host's answers |
| Disks.GetAvailableDevices | pkg/util/sys/disks.go:110-147 | the loop keeps the blank devices by path; exactly which, by the host's answers |
| Disks.FiltersAre | pkg/util/sys/disks.go:46-143 | exactly which devices each filter lets through |
| Disks.KeptIff | pkg/util/sys/disks.go:110-196 | in terms of the host's answers: the one filter keeps the listed, readable devices of at least 2 GiB without filesystem, mount point and children |
| Disks.FlaggedIff | pkg/util/sys/disks.go:34-108 | the other gives each readable device its verdict: available exactly if it is such a device by its kernel name and no loop device |
| Disks.ParsesDigits | pkg/util/sys/disks.go:227-232 | a size below 2^64 is read back from its digits, a larger one is an error |
| Disks.BaseOfPath | pkg/util/sys/disks.go:249-257 | the last element of a path is its name, with or without directories |
| Disks.FiltersAgreeIff | pkg/util/sys/disks.go:46-143 | exactly where the two agree |
| Disks.LoopDeviceSplitsFilters | pkg/util/sys/disks.go:46-143 | a loop device on which they do not |
| Disks.FiltersAgree | pkg/util/sys/disks.go:46-143 | on every non-loop device whose kernel name is its listed name they do |
| Finalizer.Remove | pkg/operator/controller/finalizer.go:45-53 | the loop over the shifting array, with its length, its whole array and its panics, stays in bounds |
| Finalizer.Contains | pkg/operator/controller/finalizer.go:34-42 | membership |
| Finalizer.AddIfNotPresent | pkg/operator/controller/finalizer.go:65-67 | adds once, and keeps the list without duplicates |
| Finalizer.SkippingIsFilterIff | pkg/operator/controller/finalizer.go:45-53 | skipping what follows a removal is filtering exactly when no two occurrences are adjacent |
| Finalizer.ScanSkips | pkg/operator/controller/finalizer.go:45-53 | unless the list ends in the string, the loop skips what follows a removal and never panics |
| Finalizer.RemoveUndoesAdd | pkg/operator/controller/finalizer.go:65-88 | removing after adding gives back a list that lacked the finalizer |
| Finalizer.RemovesIff | pkg/operator/controller/finalizer.go:45-53 | exactly when remove is order-preserving filtering without a panic |
| Finalizer.TwiceGoesWrong | pkg/operator/controller/finalizer.go:45-53 | two adjacent occurrences: a panic at the end of the list, one left over elsewhere |
| Finalizer.DistinctIsRemoved | pkg/operator/controller/finalizer.go:86-88 | on lists without duplicates it always is |

## Left out

- PrepareVg.Reconciler.Reconcile: auto-loop classes and the list of all devices are not modelled; a class's devices are taken as given.
- PrepareVg.Reconciler.InitNewPvs: the replacement of an auto-loop device's name by its loop device is not modelled.
- PrepareVg.Reconciler.CheckVgIfExpand: nor is it here.
- PrepareVg.Reconciler.CreateVg: nor here, where the replaced name also goes into the class.
- PrepareVg.Reconciler.CreateVgRetry: nor here.
- PrepareVg.Reconciler.MarkUnusable: nor here.
- Node.NodeState.Write: patches of the job and the daemon that race are not modelled; each read, compute and write is one step.
- Discovery.DeviceManager.CheckRawDeviceDeleted: API failures other than version conflicts and missing objects are not modelled.
- ClusterStatus.Cluster.CheckStatus: the metrics are not modelled; a failing list of pods or ConfigMaps is an empty one.
- Disks.DiscoverDevices: serial, vendor, device links, parent and device numbers do not matter to the filters; a number or UUID that cannot be read is an answer of the host.
- LvmReport.ParseOneLine: letter case is that of ASCII, as LVM's field names are; strings are sequences of characters, not bytes.
- Loop devices and their states, and the daemon's own copy of loop states.
- JSON and YAML: statuses and lvmd lists are read back as they were written; values that cannot be unmarshalled are not part of this model.
- gRPC, clients, informers, commands, logging, process execution and the building of Kubernetes objects: plumbing.
- The hash function itself, the name built for the finalizer, and the bounded retries of the helpers.
- CSI idempotency by volume name and a limit after rounding: the code does not aim at them; the request's name only has to be non-empty.
