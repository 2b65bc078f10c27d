# NexentaStor block CSI driver: a verified model

A Dafny model of the protocol that the CSI driver runs against a NexentaStor appliance, and proofs about it. The
appliance is an explicit state: volumes with sizes and clone origins, snapshots with a name and a parent volume, and LUN
mappings by id. Each call of the driver is a sequence of single backend calls on that state, any of which may get no
answer, which cuts the request short there.

| file | what it holds |
|---|---|
| `wrappers.dfy`, `text.dfy`, `identifiers.dfy`, `devpath.dfy` | an Option; Go's string and path operations; volume and snapshot ids and their parsers; udev device paths |
| `appliance.dfy`, `provider.dfy` | the appliance's state, what each provider call does to it, and the provider as an object |
| `lifecycle.dfy`, `controller.dfy` | requests with their answers, final states and midway states; the controller's methods (and the node's mapping check) proved to be exactly that |
| `promises.dfy` | what an answer Ok promises, said of the volumes, snapshots and mappings themselves, and that every request keeps it |
| `retries.dfy`, `runs.dfy` | idempotence and convergence after interruptions; what holds over every sequential run |
| `allocator.dfy`, `staging.dfy` | the target scan and its exact choice; many stagings interleaved, and the exact bound on a target group's load |
| `restaging.dfy` | scan and mapping check as one call, and exactly when repeating it changes nothing |
| `pagination.dfy` | one page of snapshots, and following tokens to the end |
| `config.dfy` | configuration refresh, validation, and the resolvers built from it |
| `resolution.dfy` | finding an appliance for a request, for every order of a Go map |
| `polling.dfy` | the two waiting loops, with 64-bit durations where they matter |
| `mounts.dfy` | one node's mount table and devices, and the filesystems on the volumes |

The order in which Go visits a map, the order of a listing, the clone that the appliance promotes, the clock, random
names and new ids are parameters or free choices, so every theorem holds for all of them. `dafny verify dfyconfig.toml`
checks the whole project.

## Assumptions about the appliance

The go-nexentastor library is not part of this model. Its calls are assumed to do this: creating a volume, a snapshot or a
target that exists is refused as already existing and destroying what does not as not existing; a mapping to a missing
volume is refused; a clone has its snapshot's size; a snapshot with clones is busy; destroying a volume with promotion
removes it and its snapshots, except that some clone of it takes over at least those snapshots that have clones; an empty
field of a mapping filter matches everything; a mapping is gone once its destruction has been answered. Nothing is assumed
about a second mapping of one volume, target group and host group: `Appliance.AddMapping` adds it, so that mapping
uniqueness is the driver's own doing, and in `staging.dfy` a refusal is the action `Abort`. `yaml.Unmarshal` into an
existing configuration adds and overwrites map entries and removes none. Every edit of the configuration file changes its
modification time. Snapshot paths in one listing are unique and not empty (`Pagination.RepeatedPathLoops` shows
what happens when one is repeated). A filesystem on a device is detected truthfully, and resizing it keeps its type. A device's name goes to
another volume only when it is neither attached nor mounted.

## Where the code and the expectation differ

- NodeStageVolume must be idempotent, and in dynamic mode it is not: each call scans anew and looks for a mapping only in the
  group it finds, so a repeat, or a retry after a call that was cut short once the mapping was made, can map the volume a
  second time (`Restaging.StagedTwice`, for two equally loaded groups). `Restaging.RepeatExactly` says, before the first call,
  when the repeat changes nothing; at the cap it never does. With a given target group the calls are idempotent.
- Deleting a volume that was cloned into another group can leave two snapshots of one name in that group
  (`Runs.ForeignCloneBreaksNames`). `Runs.NamesStayUniqueExactly` says which runs do, `Runs.DeleteIsSafeExactly` which
  deletes can; with clones in their source's group none does.
- With a zone and no volume group, whether an appliance is found can depend on map order, because the first default group
  that is not empty is then used for all later appliances: `Resolution.FoundInEveryOrder` and `Resolution.FoundInSomeOrder`
  give the configurations. With a zone that no appliance has, and with an empty map, a nil error is dereferenced.
- The scan for a target takes 0 mappings for "nothing chosen yet", so an empty group is given up for the next eligible
  one (`Allocator.ChosenIsMinimum` says when the least loaded group is chosen all the same). Two scans that find no target
  at once both create one (`Staging.TwoTargetsAtOnce`).
- After any failure of a refresh that has noted the file's modification time, refreshes report success and change nothing
  until the file is edited again or a secret comes (`Configuration.FailedReadGoesStale`; `Configuration.UnreadableFileExactly`
  and `Configuration.InvalidFileExactly` say when that does no harm). A second server refreshing the
  same configuration object, as the identity server's Probe does, leaves stale resolvers unless it has a secret or they
  are the same (`Configuration.SharedRefresh`). Names removed from the file stay (`Configuration.RemovedNamesStay`).
- A resolver that cannot be built, and that the library then returns as nil, is dereferenced by the controller before the
  error is looked at (`Configuration.Server.RefreshConfig` ends in `Panicked`).
- Two portals have device paths in common exactly when one's, followed by "-iscsi-", begins with the other's, followed by
  "-iscsi-" (`DevicePaths.PortalsCollideExactly`). A "-" alone does no harm (`DevicePaths.DashesMayDiffer`).
- ListSnapshots for one snapshot id does not count the parts around ":": without one it panics, with one too many it lists a
  snapshot under an id that DeleteSnapshot rejects (`Identifiers.ListedSnapshotAgrees`).
- When the timeout comes out at 2^33 seconds or more, the doubled sleep overflows and the staging loop never gives up
  (`Polling.GivesUpExactly`). Longer ones wrap around and may time out at once (`Polling.LongTimeoutAtOnce`).
- An existing directory where nothing is mounted counts as on its parent's device: unstaging it detaches that device, and
  publishing from it mounts that device, unless it is the root's (`Mounts.UnstageDetachesExactly`,
  `Mounts.PublishFromDirectory`).
- Two snapshots listed under one path send a caller that follows the tokens round for ever (`Pagination.EndsExactly`).
- The deadline message of the unpublish loop gives the last sleep time (61) as the seconds waited, which are 1888
  (`Polling.UnpublishWaitBounds`).

## Model

| member | source | states |
|---|---|---|
| `Identifiers.VolumeIdRoundTrip` | pkg/driver/controllerServer.go:836-848 | the id `config:pool/group/volume` is split back into exactly its components if and only if they are free of the separators; otherwise it is rejected, never misread |
| `Identifiers.SnapshotIdRoundTrip` | pkg/driver/controllerServer.go:1036-1054 | the same for the snapshot id as DeleteSnapshot splits it, with "@" first |
| `Identifiers.SnapshotSourceRoundTrip` | pkg/driver/controllerServer.go:532-536 | the same for the snapshot id as CreateVolume splits it: only ":" matters, in the snapshot name too |
| `Identifiers.ClassesExactly` | pkg/driver/controllerServer.go:1036-1071 | which strings each parser takes for malformed, for another kind, or for an id: exactly those made of separator-free components |
| `Identifiers.ParsersInjective` | pkg/driver/controllerServer.go:1036-1071 | two accepted ids that parse alike are the same id |
| `Identifiers.VolumeIdRebuilt` | pkg/driver/controllerServer.go:653 | every accepted id is rebuilt from its parsed parts by the format CreateVolume uses |
| `Identifiers.GroupsAgree` | pkg/driver/controllerServer.go:976 | the group by filepath.Dir equals the first two path parts exactly for the stated pools and groups |
| `Identifiers.ListedSnapshotRoundTrip` | pkg/driver/controllerServer.go:1131-1148 | ListSnapshots for one id reads a snapshot id back exactly when DeleteSnapshot does |
| `Identifiers.ListedSnapshotAgrees` | pkg/driver/controllerServer.go:1131-1144 | for which strings at all the two read the same |
| `Identifiers.ListedSnapshotMisread` | pkg/driver/controllerServer.go:1137-1138 | without a ":" the listing panics, and with one too many it reads a snapshot that DeleteSnapshot rejects |
| `Identifiers.CreatedIdRoundTrip` | pkg/driver/controllerServer.go:560-653 | the id of a created volume, with its path cleaned by filepath.Join, is read back by every consumer as the same config, group and volume; and so are the ids of its snapshots |
| `DevicePaths.SamePathExactly` | pkg/driver/nodeServer.go:506-508 | two device paths are equal if and only if the LUNs are and portal, "-iscsi-" and target are in a row |
| `DevicePaths.PortalsCollideExactly` | pkg/driver/nodeServer.go:506-508 | for all portals: some of their device paths are equal if and only if one portal with "-iscsi-" is a prefix of the other with it |
| `DevicePaths.DevPathInjective` | pkg/driver/nodeServer.go:499-509 | equal device paths mean equal target and LUN on one portal, portals that overlap so, and equal portals when these hold no "-" |
| `DevicePaths.DashedPortalCollides` | pkg/driver/nodeServer.go:506-508 | portals that hold "-iscsi-" share paths with shorter ones: a whole family of collisions |
| `DevicePaths.DashesMayDiffer` | pkg/driver/nodeServer.go:506-508 | portals that differ at some position, with dashes or without, never share a path |
| `DevicePaths.LunTextReadsBack` | pkg/driver/nodeServer.go:500-505 | the LUN suffix, short or extended, decodes back to the LUN |
| `DevicePaths.SmallLunText` | pkg/driver/nodeServer.go:503-504 | LUNs up to 255 are plain decimal numbers |
| `DevicePaths.SixteenBitLunText` | pkg/driver/nodeServer.go:501-502 | LUNs 256 to 65535 give "0x", exactly four hex digits and twelve zeros |
| `Pagination.GetVolumeSnapshotList` | pkg/driver/controllerServer.go:1219-1248 | one page is the slice from the token's first position, cut at the limit, with the next path as token, for every token and 32-bit limit |
| `Pagination.WalkListsEverything` | pkg/driver/controllerServer.go:1179-1247 | following tokens from none gives the whole list in order, nothing lost or repeated, in ceil(n/limit) pages (one for n = 0), all full but the last |
| `Pagination.WalkFrom` | pkg/driver/controllerServer.go:1219-1226 | from any token the caller gets exactly the rest of the list |
| `Pagination.WalkLeadsToSnapshots` | pkg/driver/controllerServer.go:1250-1262 | with the ids of the i-th entry of a walk DeleteSnapshot and ListSnapshots find the i-th snapshot, and the volume's calls its parent |
| `Pagination.NoLimitListsAll` | pkg/driver/controllerServer.go:1219-1248 | without a limit a page is the whole rest of the list |
| `Pagination.RepeatedPathLoops` | pkg/driver/controllerServer.go:1221-1239 | in any list with a path listed twice, requests for single entries never come to an end nor past the second |
| `Pagination.EndsExactly` | pkg/driver/controllerServer.go:1219-1247 | following tokens ends for every limit if and only if no path is listed twice |
| `Controller.ControllerServer.CreateNewVolume` | pkg/driver/controllerServer.go:681-729 | creates the volume, or accepts an existing one of the requested size and no other; Ok means that it exists in that size and nothing else has changed |
| `Controller.ControllerServer.CreateNewVolumeFromSnapshot` | pkg/driver/controllerServer.go:732-770 | clones the snapshot, or accepts an existing volume; a missing snapshot is not found |
| `Controller.ControllerServer.CreateClonedVolume` | pkg/driver/controllerServer.go:772-812 | snapshots the source under a name made from the clone's, then clones it; existing ones are reused; Ok means that a new volume's origin is that snapshot of the source, which exists |
| `Controller.ControllerServer.CreateVolume` | pkg/driver/controllerServer.go:435-679 | the refusals, malformed source ids included; then all three paths, each with its promise; the id in the response, and as capacity the required bytes, or 1073741824 when these are 0; after a fresh create the volume has exactly that size, also if it existed |
| `Controller.RejectedExactly` | pkg/driver/controllerServer.go:441-541 | which requests are refused outright, and with which error |
| `Controller.OneSizePerRequest` | pkg/driver/controllerServer.go:690-716 | two creates of one name with different sizes are never both answered Ok |
| `Controller.CreatedVolumeIsNamed` | pkg/driver/controllerServer.go:653 | the id in the response names the created volume to every later call |
| `Controller.SourceNamesItsVolume` | pkg/driver/controllerServer.go:532-556 | a content source's id leads CreateVolume to the volume or snapshot it was made for |
| `Controller.ControllerServer.CreateSnapshotOnNS` | pkg/driver/controllerServer.go:969-1014 | refuses a name that another volume of the group has; otherwise the snapshot exists afterwards and is returned, a repeated call returning the first one |
| `Controller.ControllerServer.CreateSnapshot` | pkg/driver/controllerServer.go:897-967 | the same from the volume's id, the errors for malformed requests, and in the response the volume's id, "@" and the name |
| `Controller.ControllerServer.DeleteSnapshot` | pkg/driver/controllerServer.go:1017-1083 | which ids are accepted, rejected or taken for gone; a missing snapshot is fine, one with clones is refused and stays |
| `Controller.ControllerServer.DestroyLuns` | pkg/driver/controllerServer.go:867-876 | all mappings of the volume and no others are gone, or some of them when cut short |
| `Controller.ControllerServer.DeleteVolume` | pkg/driver/controllerServer.go:815-894 | Ok means that the volume, its mappings and its snapshots are gone, that all else is there, and that snapshots which had clones are the promoted clone's; otherwise a state part of the way there; malformed and unresolved ids are answered without touching anything |
| `Controller.ControllerServer.ControllerUnpublishVolume` | pkg/driver/controllerServer.go:1393-1442 | all mappings of the volume gone and the second listing empty, or part of the way there |
| `Controller.ControllerServer.ControllerExpandVolume` | pkg/driver/controllerServer.go:309-366 | at least the requested size on success, node expansion asked for exactly when the size changed, and the malformed path that is answered Ok unchecked |
| `Controller.NodeServer.EnsureMapping` | pkg/driver/nodeServer.go:573-603 | reuses a matching mapping or creates one, and returns the LUN of a matching mapping |
| `Promises.CreateKeepsPromise` | pkg/driver/controllerServer.go:690-725 | a create is Ok exactly when the volume is there in that size or can be made; then it exists in that size, no clone if new, and nothing else has changed |
| `Promises.FromSnapshotKeepsPromise` | pkg/driver/controllerServer.go:741-766 | a new volume's origin is the snapshot, its size the snapshot's; the errors otherwise |
| `Promises.CloneKeepsPromise` | pkg/driver/controllerServer.go:783-808 | a new clone's origin is the original's snapshot that carries the clone's name, which exists, in the original's size if it is new; the errors otherwise |
| `Promises.CloneKeysDiffer` | pkg/driver/controllerServer.go:783-784 | clones of different names or originals never share a snapshot |
| `Promises.TwoClonesSucceed` | pkg/driver/controllerServer.go:772-812 | where there are no snapshots two clones of different names both succeed, each with its own origin |
| `Promises.SnapshotKeepsPromise` | pkg/driver/controllerServer.go:975-1013 | the snapshot exists, alone of its name in the group, and nothing else has changed; refused exactly when another volume has the name |
| `Promises.DeleteSnapshotKeepsPromise` | pkg/driver/controllerServer.go:1072-1082 | the snapshot is gone and nothing else; refused exactly when a volume is its clone |
| `Promises.DeleteKeepsPromise` | pkg/driver/controllerServer.go:864-893 | the volume, its mappings and its snapshots are gone and all other volumes, mappings and snapshots are there; what had clones is the promoted clone's, and their origin |
| `Promises.UnpublishKeepsPromise` | pkg/driver/controllerServer.go:1425-1437 | exactly the volume's mappings are gone |
| `Promises.ExpandKeepsPromise` | pkg/driver/controllerServer.go:343-366 | the volume has the size asked for, or its own if that is larger |
| `Promises.StageKeepsPromise` | pkg/driver/nodeServer.go:573-602 | the group maps the volume to the host group, by one new mapping if it did not |
| `Retries.RepeatIsIdempotent` | pkg/driver/controllerServer.go:690-725 | any request of the controller that succeeded, and any staging with its target group given, succeeds again and leaves the appliance as it was, whatever the appliance would choose the second time |
| `Retries.CloneIsIdempotent` | pkg/driver/controllerServer.go:786-808 | the same for a clone with its snapshot, at any later time |
| `Retries.OneAttempt` | pkg/driver/controllerServer.go:864-893 | an attempt cut short after any backend call changes neither the answer nor the final state of the retry |
| `Retries.RetriesConverge` | pkg/driver/controllerServer.go:783-811 | any number of interrupted attempts of one request of the controller, or of one staging with its target group given, and then a complete one leave the state, and give the answer, of one uninterrupted call |
| `Retries.FailureChangesNothing` | pkg/driver/controllerServer.go:795-807 | a request that ends in an error of its own changes nothing, except the snapshot left by a clone into a missing group |
| `Runs.NamesStayUniqueExactly` | pkg/driver/controllerServer.go:975-1000 | over every run, clones anywhere, names stay unique if and only if no delete moves a snapshot onto another of its name |
| `Runs.RemovalKeepsNames` | pkg/driver/controllerServer.go:879-882 | a delete with promotion keeps names unique if and only if no third volume of the clone's group has a snapshot named like a moved one |
| `Runs.DeleteIsSafeExactly` | pkg/driver/controllerServer.go:879-882 | whichever clone the appliance promotes, names stay unique if and only if none of the volume's snapshots is named like one in a clone's group |
| `Runs.NamesStayUnique` | pkg/driver/controllerServer.go:975-1000 | so over every run with clones in their source's group, interrupted calls and promotions included, snapshots of one name in a group have one parent |
| `Runs.RemoveVolumeKeepsGood` | pkg/driver/controllerServer.go:879-882 | a delete that hands snapshots to a promoted clone keeps names unique, clones in their group and every snapshot with an existing parent |
| `Runs.StepKeepsGood` | pkg/driver/controllerServer.go:783-789 | each request keeps that, complete or cut short |
| `Runs.ForeignCloneBreaksNames` | pkg/driver/controllerServer.go:750-752 | an instance: four successful calls with a clone into another group end with two snapshots of one name in it |
| `Runs.MappingsStayGood` | pkg/driver/nodeServer.go:573-602 | over every sequential run there is at most one mapping per target group, volume and host group, and each has its volume |
| `Runs.StepKeepsMappings` | pkg/driver/controllerServer.go:1432-1437 | each request keeps that, complete or cut short |
| `Runs.SizeNeverDecreases` | pkg/driver/controllerServer.go:343-366 | a volume's size never decreases while it exists, and stays at least what any completed expand asked for |
| `Allocator.ResolveTargetGroup` | pkg/driver/nodeServer.go:244-311 | the nested loops are the left-to-right scan, with every failing call's outcome; a failing listing, of target groups too, is the nil error without a group |
| `Allocator.ProbesInOrder` | pkg/driver/nodeServer.go:257-258 | the members are met in the order of the listing and of their groups |
| `Allocator.ScanChoosesBest` | pkg/driver/nodeServer.go:255-310 | when calls succeed, a new target is created exactly when no member is eligible; otherwise the first with the fewest mappings after the last empty one is returned, or that empty one if it is last |
| `Allocator.FirstFailureDecides` | pkg/driver/nodeServer.go:263-297 | what the first call that fails does: a nil error without a group, an error, or nothing where the member would not be taken |
| `Allocator.ChosenUnique` | pkg/driver/nodeServer.go:267 | that description fits one member only |
| `Allocator.ChosenIsMinimum` | pkg/driver/nodeServer.go:267 | the choice is the true minimum exactly when no eligible group is empty or the last eligible one is |
| `Allocator.ScanReturnsMember` | pkg/driver/nodeServer.go:299-307 | whatever fails, a returned target is a member of the returned group |
| `Allocator.TargetProvider.CreateNewTargetTg` | pkg/driver/nodeServer.go:313-380 | the context's target and group where it names them, else a new name under the prefix, or what follows the target's last ":"; when the creation succeeds, and what is left when it does not; a generated target is left eligible exactly while there is room |
| `Allocator.NewGroupFromTarget` | pkg/driver/nodeServer.go:319-330 | unless named in the context, the group is what follows the target's last ":", for generated names too |
| `Allocator.NewTargetIsEligible` | pkg/driver/nodeServer.go:319-321 | with the CHAP setting a creation leaves, a generated target is eligible for the same prefix and authentication exactly below the cap |
| `Allocator.NoSecondTarget` | pkg/driver/nodeServer.go:257-310 | a scan that meets such a target below the cap, and whose calls succeed, creates no other |
| `Restaging.RescanExactly` | pkg/driver/nodeServer.go:255-310 | with one mapping more in a group, the scan leads to that group if and only if it stays below the cap, no other member after the last other empty one has fewer mappings, and none before it as few |
| `Restaging.StaysAmongDistinct` | pkg/driver/nodeServer.go:267 | where each eligible member has a group of its own, that is a comparison of the chosen one with its neighbours |
| `Restaging.UnchangedExactly` | pkg/driver/nodeServer.go:557-602 | a whole staging leaves the appliance as it is if and only if the scan leads to a group that maps the volume already |
| `Restaging.RepeatExactly` | pkg/driver/nodeServer.go:557-602 | for a volume not mapped yet, whether the repeat changes nothing, as a condition on the state before the first call; cut short after its mapping was made or not |
| `Restaging.RepeatInGeneral` | pkg/driver/nodeServer.go:557-602 | the same for any volume, with the groups that mapped it before |
| `Restaging.StagedTwice` | pkg/driver/nodeServer.go:557-602 | two equally loaded groups that are not empty: the second call maps the volume again, in the other group |
| `Restaging.CutAfterTarget` | pkg/driver/nodeServer.go:313-350 | a call cut short after making a target and its group ends, when repeated, as it would have |
| `Restaging.StagingMaps` | pkg/driver/nodeServer.go:557-602 | a staging maps the volume in the group its scan leads to, or in that of a target it adds |
| `Restaging.StaticMapsInOwnGroup` | pkg/driver/nodeServer.go:563-602 | in static mode the volume is mapped in the context's own group |
| `Restaging.StaticRepeatExactly` | pkg/driver/nodeServer.go:319-330 | a static staging is idempotent exactly when the context names a target |
| `Restaging.LoneStagingIsStaged` | pkg/driver/nodeServer.go:557-602 | the interleaved model's steps of an undisturbed staging, creation and mapping included, end as the whole call |
| `Staging.LoneStagingScans` | pkg/driver/nodeServer.go:257-305 | the interleaved model's steps of an undisturbed staging end with the outcome of the scan |
| `Staging.NextKeepsBound` | pkg/driver/nodeServer.go:257-310 | no single backend call breaks: mappings of a group plus stagings that may still use it are at most N + k - 1 |
| `Staging.NoGroupOvershoots` | pkg/driver/nodeServer.go:564-602 | in every interleaving of at most k stagings with each other and with unmappings, no group exceeds N + k - 1 mappings, so N one at a time |
| `Staging.BoundIsReached` | pkg/driver/nodeServer.go:584-590 | for every N, k and group some interleaving of stagings of k different volumes reaches N + k - 1, all mappings distinct in volume and LUN |
| `Staging.TwoTargetsAtOnce` | pkg/driver/nodeServer.go:306-310 | two stagings that find no target at once both create one |
| `Configuration.Config.Validate` | pkg/config/config.go:93-147 | valid exactly when every entry is complete, whatever the map order; defaults written; nil pointer only for a missing allocation mode |
| `Configuration.CompleteExactly` | pkg/config/config.go:96-128 | which settings a valid entry has |
| `Configuration.AddressExactly` | pkg/config/config.go:17 | the addresses that match are http or https, "://", a host without ":", and ":" with one to five digits |
| `Configuration.CoherentExactly` | pkg/driver/controllerServer.go:83-91 | what a coherent server holds: the entries, and resolvers with their address, user, password and certificate setting, unchecked by default |
| `Configuration.Config.Refresh` | pkg/config/config.go:56-90 | when the source is re-read and what the fields become: an unreadable or malformed one leaves the map, an invalid one fails with the entries merged, and success is exactly a valid merged map |
| `Configuration.Server.RefreshConfig` | pkg/driver/controllerServer.go:76-99 | success after a change means a resolver for every entry, built from that entry; an unusable source fails and leaves the resolvers; with a valid map it succeeds exactly when all can be built, and panics otherwise |
| `Configuration.StepKeepsSynced` | pkg/config/config.go:66-79 | a refresh that succeeds, meets no file or reads a secret leaves the modification time trustworthy |
| `Configuration.UnreadableFileExactly` | pkg/config/config.go:73-82 | so does one of a file that cannot be read or parsed if and only if the server already has all that is in it |
| `Configuration.InvalidFileExactly` | pkg/config/config.go:80-86 | so does one that makes the map invalid if and only if the server already has the file's resolvers (where no default is left to set; only if, in general) |
| `Configuration.RefreshesStayCoherent` | pkg/driver/controllerServer.go:76-99 | across any mix of edits, secrets and harmless failures, each success leaves every name of its source with the source's entry and resolver |
| `Configuration.FailedReadGoesStale` | pkg/config/config.go:66-87 | after every other failure, each refresh without a secret of the unedited file reports success and changes nothing, however many follow |
| `Configuration.LoadedFromFile` | pkg/config/config.go:166-181 | a server starts coherent with the file that was read for it, whatever its entries |
| `Configuration.StaleAfterOneFailure` | pkg/config/config.go:73-78 | a server that loaded one file, and could not read the next once, keeps the first and reports success; right if and only if no entry was added or changed |
| `Configuration.SharedRefresh` | pkg/driver/identityServer.go:42 | after another server's refresh of the same configuration this one is in order if and only if a secret was passed or its resolvers are what the file now asks for |
| `Configuration.SharedConfigGoesStale` | pkg/driver/controllerServer.go:76-95 | a server that had loaded the old file then reports success and keeps the old resolvers; right if and only if the new file asks for the same |
| `Configuration.RemovedNamesStay` | pkg/config/config.go:80-82 | after a re-read the map equals the source exactly when no old name was removed |
| `Resolution.ResolveNSNoZone` | pkg/driver/controllerServer.go:126-169 | for every map order: found exactly when some appliance resolves the group wanted of it, soundly; otherwise the last one's certificate decides the error; the nil dereference exactly on an empty map |
| `Resolution.ResolveNSWithZone` | pkg/driver/controllerServer.go:171-223 | the named appliance must match the zone; otherwise the outcome of the scan in the given order |
| `Resolution.ZoneScanSound` | pkg/driver/controllerServer.go:198-215 | a success is an appliance of the zone on which the returned group was resolved; nil dereference exactly when the zone has none |
| `Resolution.ZoneScanFailure` | pkg/driver/controllerServer.go:218-222 | when none is found, the last appliance asked decides between the two errors |
| `Resolution.ZoneScanOfGroup` | pkg/driver/controllerServer.go:198-215 | for a given group, success does not depend on the order |
| `Resolution.ZoneScanExactly` | pkg/driver/controllerServer.go:198-215 | for every order, with and without a group, success is that some appliance of the zone holds the group it is asked for, which is the first default met |
| `Resolution.ZoneScanOfDefault` | pkg/driver/controllerServer.go:200-203 | without a group: those before the first default are asked for "", that one and the rest for its default |
| `Resolution.FoundInEveryOrder` | pkg/driver/controllerServer.go:198-215 | whether every order finds an appliance, as a condition on the configuration alone |
| `Resolution.FoundInSomeOrder` | pkg/driver/controllerServer.go:198-215 | and whether some order does |
| `Resolution.FoundWhereAllHaveDefaults` | pkg/driver/controllerServer.go:198-215 | where all appliances of the zone have defaults, every order finds one if and only if there is one and each default is held in the zone |
| `Resolution.DefaultlessHolderMatters` | pkg/driver/controllerServer.go:200-203 | in general that is not enough: an appliance without a default that holds the only one may be passed over |
| `Resolution.ZoneOrderMatters` | pkg/driver/controllerServer.go:200-203 | two orders of one map, one finding an appliance and one not |
| `Polling.WaitForDevice` | pkg/driver/nodeServer.go:632-653 | the doubling loop in 64-bit nanoseconds, for every device behaviour |
| `Polling.DeviceWaitBounds` | pkg/driver/nodeServer.go:632-653 | at most floor(log2 T) + 1 polls; a deadline error only after T <= S <= 2T - 1 seconds of sleep; success exactly after a poll that found the path |
| `Polling.WaitBounds` | pkg/driver/nodeServer.go:632-653 | the same for any limit of a second or more below 2^33 seconds, wrapped around or not |
| `Polling.PollBoundExact` | pkg/driver/nodeServer.go:637-648 | for every timeout from a second on, the poll bound holds for all devices exactly when the limit comes out below 2^33 seconds |
| `Polling.GivesUpExactly` | pkg/driver/nodeServer.go:637-648 | for every timeout, a device that stays missing is given up sooner or later exactly then |
| `Polling.LongTimeoutAtOnce` | pkg/driver/nodeServer.go:637 | a timeout of 10^10 seconds is over without a poll |
| `Polling.WaitUntilGone` | pkg/driver/controllerServer.go:1439-1459 | for any start, limit and backend: number of polls, total sleep, last sleep time, and success exactly when the last listing was empty |
| `Polling.SeriesClosedForm` | pkg/driver/controllerServer.go:1447-1452 | the closed form of the total sleep |
| `Polling.UnpublishWaitBounds` | pkg/driver/controllerServer.go:1444-1457 | at most 59 polls and 3 + 4 + ... + 61 = 1888 seconds; at the deadline the reported sleep time is 61 |
| `Mounts.Node.Stage` | pkg/driver/nodeServer.go:615-714 | a stage is a repeat, formats, mounts or is refused, and leaves exactly the state of the operation |
| `Mounts.Node.Publish` | pkg/driver/nodeServer.go:866-906 | mounts the staged device at the target unless something is mounted there |
| `Mounts.Node.MountVolume` | pkg/driver/nodeServer.go:975-1020 | a mount point is left alone, anything else gets the device |
| `Mounts.Node.Unpublish` | pkg/driver/nodeServer.go:1093-1125 | the target is no mount point and no path any more, other mounts stay |
| `Mounts.Node.Unstage` | pkg/driver/nodeServer.go:773-813 | the same for the staging path, and the device found there is detached |
| `Mounts.Node.Expand` | pkg/driver/nodeServer.go:1251-1265 | fails where no device is mounted and changes neither mounts nor filesystems |
| `Mounts.CallsAreTracked` | pkg/driver/nodeServer.go:893-906 | any calls between stage and unstage, in any order, leave exactly the published targets and the staging path showing the device |
| `Mounts.NodeRoundTrip` | pkg/driver/nodeServer.go:771-813 | published targets show the staged device; unstaging restores the mount table exactly when all targets are unpublished, and detaches the device |
| `Mounts.RepeatedStage` | pkg/driver/nodeServer.go:661-714 | staging once more changes nothing and gives the same answer, whatever was mounted there |
| `Mounts.UnstageDetachesExactly` | pkg/driver/nodeServer.go:775-796 | which attached device an unstage detaches: the mounted one, or that of the parent's filesystem |
| `Mounts.UnstageDetachesOwnExactly` | pkg/driver/nodeServer.go:775-796 | it detaches no device but one mounted at the path if and only if something is mounted there, the path is missing, or the parent's device is the root's or not attached |
| `Mounts.PublishFromDirectory` | pkg/driver/nodeServer.go:893-906 | a publish from an unmounted directory mounts its parent's device, unless that is the root's |
| `Mounts.StageExactly` | pkg/driver/nodeServer.go:615-714 | when a stage succeeds, which filesystem it makes (ext4 unless asked otherwise), what it mounts, attaches and leaves alone |
| `Mounts.PublishExactly` | pkg/driver/nodeServer.go:866-906 | publishing and expanding need a device other than the root's; publishing mounts it unless the target is a mount point |
| `Mounts.UnmountedExactly` | pkg/driver/nodeServer.go:1093-1125 | the path is gone with all below it that is no mount point, and nothing else |
| `Mounts.CloneIsNotFormatted` | pkg/driver/nodeServer.go:684-700 | a clone staged with its source's filesystem type is not formatted, and with another it is refused |
| `Mounts.StageKeepsMounted` | pkg/driver/nodeServer.go:684-700 | a successful stage leaves a filesystem on the volume, of the type asked for unless it was staged already; a failing one touches neither volumes nor mounts |
| `Mounts.FormattedOnce` | pkg/driver/nodeServer.go:684-700 | over every run of stage, publish, unpublish, unstage, expand and clone, a volume with a filesystem keeps its type and is never formatted again, and none is formatted twice |
| `Mounts.NoneFormattedWhileMounted` | pkg/driver/nodeServer.go:684-714 | over every such run, device names reused included, each mounted volume has a filesystem, and no call changes what is on it |

## Left out

- REST calls, resolver internals and `GetVolumesWithStartingToken` of the library, hence `ListVolumes`.
- `ListSnapshots` over several appliances: it applies token and limit to each separately, so completeness fails.
- Concurrent calls other than stagings, unmappings and CHAP changes: mapping uniqueness and the snapshot invariants are
  for sequential runs.
- Asynchronous removal of mappings: `ControllerServer.ControllerUnpublishVolume` ends at the second listing, and
  `Polling.WaitUntilGone` has the wait for any backend behaviour on its own.
- Resolving inside the controller's calls: its outcome is a parameter there; `resolution.dfy` has the resolution itself.
- Volume groups nested in the request's group, volume names that filepath.Join would rewrite, and source volume paths that
  filepath.Dir would: a volume is a group and a name in `appliance.dfy`. `Identifiers.CreatedIdRoundTrip` covers the strings.
- The capacity in a clone's response, which echoes the request and not the clone's size.
- Reads that fail during concurrent scans other than by aborting the staging; `Allocator.ResolveTargetGroup` has them.
- What a failing `yaml.Unmarshal` may have set before it failed; a configuration without a file path.
- A target named in the volume context of a dynamic staging, and failing calls, in `restaging.dfy`; `allocator.dfy` has both.
- Block mode staging and publishing, stacked and bind mounts, unmounting below a mount point, directory permissions.
- Format retries with backoff and partly made filesystems: a format either succeeds or leaves the device empty.
- The volume context from create to stage: the address is written under another key than it is read, and the target
  prefix comes from the configuration only.
- Shell commands, sysfs, logging, gRPC plumbing, capabilities, `IdentityServer.Probe`, CHAP secrets, TLS, error texts.
