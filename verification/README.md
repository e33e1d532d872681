# oVirt Server: models and proofs

oVirt Server keeps a database in agreement with a set of virtualisation hosts: a Rails application
holds pools, permissions, quotas, machines and storage, and several daemons bring the tables up to
date with what a message bus reports.  This project models the parts of it that keep an invariant
over unbounded runs, or that refine a simple definition by incremental code, and proves those
properties for all inputs, all runs and all reachable states.

Each service call, database transaction or monitor-protected callback is one atomic step.  Where the
original changes records in place the model is a class with those fields; its methods are proved
equal to a specification function on values, and the properties are proved about that function.
The nested-set plugin is represented by the parent of each pool, with ancestors and descendants.

| file | what it models |
|---|---|
| `Permissions.dfy`, `PermissionRuns.dfy`, `DestroyedCopy.dfy` | the pool tree and the permission rows copied down it, what every run keeps, and the run that breaks it |
| `PermissionEffects.dfy`, `PermissionSystem.dfy` | what each call leaves row by row, and the calls themselves |
| `PoolForest.dfy`, `VisiblePools.dfy` | the nested tree rebuilt from a flat list, and what one user sees of it |
| `VmLifecycle.dfy`, `VmService.dfy` | machine states, the `ACTIONS` table and the queue of tasks |
| `VmQuota.dfy` | quota admission in a virtual machine pool |
| `VmUptime.dfy` | uptime accounting by the observer |
| `Membership.dfy`, `HardwarePoolService.dfy` | join and leave events, the ranges rebuilt from them, moving hosts |
| `VmHistory.dfy`, `DbOmatic.dfy` | the daemon that mirrors the bus into the database |
| `HostRegister.dfy`, `HostNics.dfy` | the daemon that registers hosts and their network cards |
| `StorageRefresh.dfy`, `StorageMovable.dfy` | scanning storage, and nested LVM storage |
| `HostScheduler.dfy`, `VncPorts.dfy` | the host chosen for a machine, the forward port of its console |
| `EditScript.dfy` | the edit scripts of the terminal |

## What was found false

Some properties one would expect do not hold of the code.  Each has an input reached from an empty
start, or from tables the code accepts, and an exact condition:

| property | input that breaks it | exactly when it holds |
|---|---|---|
| destroying a permission row keeps the table consistent | `DestroyedCopy.HidesGrant` | `PermissionRuns.RevokeKeepsInvIffPrimary`: the row is primary |
| the tree shown to a user is in the order of the query | `VisiblePools.DestroyedCopyReorders` | `PoolForest.PreorderKeptIff`: the list never comes back to a pool it has closed |
| pending use stays within the quota when a queue is cancelled, or its head is finished but the machine not saved | `VmQuota.CancelCanExceedQuota` | `VmQuota.CancelKeepsQuotaIff`, `VmQuota.UnsavedKeepsQuotaIff`: the machine is no new consumer, or the others leave room |
| the queue is valid between the save of a machine and the save of its finished task | `VmLifecycle.NewMachineInvalid` | `VmLifecycle.BetweenTheTwoSaves`: the head is a migration |
| the queue stays valid when its head fails, or finishes without the machine being saved | `VmLifecycle.NewMachineInvalid` | `VmLifecycle.FailedHeadKeepsChainIff`: nothing is queued behind it, or it is a migration |
| the displayed uptime is right | `VmUptime.StaleReturns` | `VmUptime.UptimeIsExactIff`: no return from unreachable leaves an old timestamp in place |
| a completed refresh links every scanned volume's row to the LVM pool it carries | `StorageRefresh.SharedPathMislinks`, `StorageRefresh.LaterVolumeRelinks` | `StorageRefresh.LinkedIff`: the last scanned path that leads to the row names that LVM pool |
| a host has each reported card once | `HostNics.NeighboursDuplicate`, `HostNics.DuplicateReportsDuplicate` | `HostNics.MacsStayDistinctIff`: no unstored address is reported twice, and reports of a stored card keep apart |
| the forward port found is the least free one | `VncPorts.DefaultSkipsPort` | `VncPorts.LeastFreeIff`: as many stored ports lie below that one as there are ports up to it |
| the edit script interpreter ends | `EditScript.ScriptsThatLoop` | `EditScript.LoopsForeverIff`: the script does not end in a command without a colon; for any script, `EditScript.EndsWithinLimit` |

A comment of `db_omatic.rb` speaks of microseconds for heartbeat timestamps, while the code divides
by a thousand million; the model follows the code.

## Model

| member | source | states |
|---|---|---|
| PermissionRuns.CacheAgreesAfterEveryRun | src/app/models/pool.rb:152-157 | after every run of pool creation, grants, primary revokes, role changes, leaf deletion and user roots from a fresh database, the rows on a pool answer every privilege question as a walk up the tree looking for a grant does |
| PermissionRuns.PrivilegeIffGranted | src/app/models/pool.rb:152-157 | in any consistent table a user has a privilege on a pool if and only if a primary row for the user, with a role that contains it, lies on the pool or an ancestor |
| PermissionRuns.ExactlyOneCopy | src/app/models/permission.rb:67-78 | a primary row has exactly one derived row on each strict descendant pool and none elsewhere, each with its user and role |
| PermissionRuns.StepKeepsInv | src/app/services/permission_service.rb:63-94 | every single call keeps the tree sound, the back-pointers flat, the keys unique and the copies complete; a call that raises changes nothing |
| PermissionRuns.RunKeepsInv | src/app/services/permission_service.rb:63-94 | the same over every run |
| Permissions.CreateOutcome | src/app/models/pool.rb:66-85 | creation under a parent fails only for a missing parent or a refused name, and otherwise adds the pool with a copy of each row of the parent, pointing at the primary row |
| Permissions.CreateCopiesInsertable | src/app/models/permission.rb:33 | no copy made for a new pool is ever rejected by the uniqueness validation |
| Permissions.GrantCopiesInsertable | src/app/models/permission.rb:33 | nor is any copy of a new grant |
| Permissions.GrantOutcome | src/app/models/permission.rb:67-78 | a grant fails only for its own primary row or a missing pool or role, never for a derived row |
| PermissionRuns.UpdateRoleOutcome | src/app/models/permission.rb:55-66 | changing the role of a primary row succeeds and reaches exactly the whole cascade of copies, though the code looks one level down |
| PermissionRuns.CascadeIsFlat | src/app/models/permission.rb:22-25 | the cascade of dependent rows of a row is exactly the rows pointing straight at it |
| PermissionRuns.RevokeKeepsInvIffPrimary | src/app/services/permission_service.rb:76-80 | destroying a row keeps the table consistent if and only if the row is primary |
| DestroyedCopy.HidesGrant | src/app/services/permission_service.rb:76-80 | a run from a fresh database after which a grant lies above a pool whose own rows deny it |
| PermissionRuns.DeleteOutcome | src/app/services/hardware_pool_service.rb:149-161 | a deletion succeeds exactly for a pool that is not the default and has no children, hosts or storage, and removes just the rows on that pool: no cascade reaches another |
| PermissionRuns.UserRootKeepsInv | src/app/models/directory_pool.rb:45-59 | saving the user's permission without copies is enough, because the new directory has no descendants |
| PermissionRuns.UserRootOutcome | src/app/models/directory_pool.rb:48-56 | a new user directory fails only where creating the pool fails or the administrator role is missing; its permission is never rejected |
| PermissionRuns.UserRootGrantsAdmin | src/app/models/directory_pool.rb:51-55 | the user has every privilege of the administrator role on the new directory |
| Permissions.InsertAllSucceeds | src/app/models/permission.rb:67-78 | rows with fresh and different keys are all accepted, whatever their number |
| PermissionEffects.EveryCallHasEffect | src/app/services/permission_service.rb:63-94 | for each of the six calls, on any consistent table: the exact condition on the table under which it goes through, the rows and pools it adds, changes or removes, that all others stay as they are, and that a refused call changes nothing |
| PermissionEffects.UpdateRoleStepped | src/app/models/permission.rb:55-66 | a role update goes through exactly for a stored primary row and a known role; then the row and the rows pointing at it have the role, and no other row changes |
| PermissionEffects.DeleteStepped | src/app/services/hardware_pool_service.rb:149-161 | a deletion takes the pool and the rows on it, and every other pool and row stays |
| PermissionEffects.UserRootStepped | src/app/models/directory_pool.rb:45-59 | an existing directory leaves all as it is; otherwise there is a new pool with the administrator row of the user and copies of the rows above, and nothing else changes |
| PermissionSystem.Database.constructor | src/db/migrate/017_add_smart_pools.rb:36 | the database starts with one root directory and no permission |
| PermissionSystem.Database.CreateWithParent | src/app/models/pool.rb:66-85 | row by row, with rollback, the call does the creation transaction and nothing else: true exactly when the parent exists and the name is free, with a copy of each row of the parent on the new pool |
| PermissionSystem.Database.SaveWithNewChildren | src/app/models/permission.rb:67-78 | row by row, with rollback, the call does the grant transaction and nothing else: the primary row and one copy on every pool below |
| PermissionSystem.Database.DestroyRow | src/app/models/permission.rb:22-25 | destroying children before their parent, recursively, removes exactly the row and everything that reaches it through back-pointers |
| PermissionSystem.Database.RevokeRow | src/app/services/permission_service.rb:76-80 | the call removes the row and its cascade, every other row staying, or reports a missing row |
| PermissionSystem.Database.UpdateRoleOf | src/app/models/permission.rb:55-66 | true exactly for a stored primary row and a known role: the row and the rows pointing at it have the new role, every other row stays; an inherited row is refused |
| PermissionSystem.Database.DeleteLeafPool | src/app/services/hardware_pool_service.rb:149-161 | true exactly for a leaf that is not the default and holds nothing: the pool and its rows go together and all others stay, or nothing changes |
| PermissionSystem.Database.GetOrCreateUserRoot | src/app/models/directory_pool.rb:45-59 | an existing directory is left alone; otherwise the directory, the administrator row and the copies of the rows above appear together or not at all |
| PermissionSystem.CascadeThroughChildren | src/app/models/permission.rb:22-25 | what hangs below a row is its children and what hangs below them |
| PoolForest.FullSetNested | src/app/models/pool.rb:227-279 | the elements linked through `ref_hash` and the children arrays form the forest that placing the pools one by one gives |
| PoolForest.EveryPoolPlacedOnce | src/app/models/pool.rb:247-273 | for a list with parents first, every pool appears exactly once, under its parent if that is listed and otherwise as a root |
| PoolForest.BuildInvertsFlatten | src/app/models/pool.rb:247-273 | any forest is recovered from its pre-order |
| PoolForest.PreorderKeptIff | src/app/models/pool.rb:222-223 | the pre-order of the result is the input list if and only if the list never comes back to a pool it has closed |
| PoolForest.PlacedLastIff | src/app/models/pool.rb:250-270 | placing one pool keeps the order exactly when its parent is missing or lies on the rightmost branch |
| PoolForest.VisibleTreeRecovered | src/app/models/pool.rb:233-240 | when visibility is closed under descendants, the result is the pool tree cut to its topmost visible trees, in the order of the query |
| PoolForest.HiddenParentReorders | src/app/models/pool.rb:250-270 | a hidden pool between visible ones makes a later pool come out earlier |
| VisiblePools.UserSeesWholeSubtrees | src/app/models/pool.rb:233-240 | after any run of the permission calls a user is shown whole subtrees, in order, and a pool is among them exactly when a grant lies at or above it |
| VisiblePools.PrivilegeDescends | src/app/models/pool.rb:73-82 | a privilege on a pool holds on everything below it |
| VisiblePools.TreeExists | src/app/models/pool.rb:20-21 | every sound pool table has a forest that mirrors it, parents and all |
| VisiblePools.DestroyedCopyReorders | src/app/models/pool.rb:233-273 | after the run that destroys an inherited row the user is shown two pools in the other order than the query lists them |
| VmLifecycle.GetPendingState | src/app/models/vm.rb:279-287 | the loop with its early return finds where the queue leads from the effective state |
| VmLifecycle.ValidActions | src/app/models/vm_task.rb:133-146 | exactly the actions that start in the state, and that the privileges cover when a user is given, each once |
| VmLifecycle.EffectiveRunningIsSuccess | src/app/models/vm.rb:182-198 | the state each action's running state stands for is its success state |
| VmLifecycle.ExecutionKeepsPendingState | src/app/models/vm_task.rb:44-116 | beginning or completing the head of the queue, or settling, does not change where the queue leads |
| VmLifecycle.EventOutcome | src/app/models/vm_task.rb:44-116 | what every event does to the queue and to the state, the other fields staying: an action that fits is appended, a restart appends its two tasks, a begun, completed or failed head leaves |
| VmLifecycle.BeginThenSettleCompletes | src/app/models/vm.rb:182-198 | beginning the head and settling gives what completing it gives |
| VmLifecycle.QueueDrainsToPendingState | src/app/models/vm.rb:279-287 | completing n heads of a valid queue takes just those n off it, keeps where it leads, and when that was the whole queue the machine is in the state it promised |
| VmLifecycle.QueueLeadsToSuccess | src/app/models/vm.rb:338-346 | an action that fits makes its success state the pending state |
| VmLifecycle.RestartLeadsBackToRunning | src/app/services/vm_service.rb:180-190 | shutdown and start queued together lead from running back to running |
| VmLifecycle.ValidIffChained | src/app/models/vm.rb:279-287 | the pending state is valid if and only if every queued action starts where the one before it ends |
| VmLifecycle.QueueStaysChainedIff | src/app/models/vm.rb:338-346 | from creation on, over any run of queueing, restarting, cancelling all, executing and failing, the queue is valid throughout if and only if no head leaves it unsaved in front of others, unless it is a migration |
| VmLifecycle.QueueIsAlwaysChained | src/app/models/vm.rb:279-287 | over such runs every queued action starts where the one before it ends |
| VmLifecycle.BetweenTheTwoSaves | src/task-omatic/taskomatic.rb:901-954 | with the machine saved and its task not yet, the queue is valid if and only if it is a migration |
| VmLifecycle.FailedHeadKeepsChainIff | src/task-omatic/taskomatic.rb:938-948 | when the head leaves the queue and the machine is not saved, the pending state is the present one, unchanged after a migration, and otherwise invalid |
| VmLifecycle.NewMachineInvalid | src/task-omatic/taskomatic.rb:901-954 | a machine just created shows both ways in which its queue can be invalid |
| VmLifecycle.TransitionsHoldResources | src/app/models/vm_task.rb:44-116 | while an action runs the machine counts as a consumer exactly when it does before or after |
| VmLifecycle.OnlyStartAndRestoreConsume | src/app/models/vm.rb:171-180 | start and restore are exactly the actions that turn a machine into a consumer of quota |
| VmService.VmRecord.constructor | src/app/services/vm_service.rb:97-115 | a new machine is pending with a creation task queued |
| VmService.VmRecord.QueueAction | src/app/models/vm.rb:338-346 | a task row with the action is appended exactly when the action starts where the queue leads and, for start and restore, the machine fits into the quota beside the others and some host has its memory and some its cpus; otherwise the answer is false and nothing changes |
| VmService.VmRecord.QueueRestart | src/app/services/vm_service.rb:180-194 | exactly when the queue leads to running, shutdown and start are appended as two task rows; otherwise nothing changes |
| VmService.VmRecord.CancelQueuedTasks | src/app/services/vm_service.rb:270-277 | every queued row is cancelled and no other row changes |
| VmService.VmRecord.BeginHead | src/app/models/vm_task.rb:44-116 | the first queued task is taken up and the machine is in its running state, with the rest of the queue as it was |
| VmService.VmRecord.CompleteHead | src/task-omatic/taskomatic.rb:290-339 | the first queued task leaves the queue and the other rows stay; the machine is in the success state of that action, or unchanged when the daemon does not save it |
| VmService.FirstQueuedLeaves | src/app/models/vm.rb:282-285 | taking the first queued row out of the queue leaves the rest of it in order |
| VmQuota.TotalResources | src/app/models/pool.rb:318-331 | the quota found is that of the nearest pool at or above with one, and unlimited when there is none |
| VmQuota.NearestIsUnique | src/app/models/pool.rb:159-166 | the nearest pool with a quota is determined |
| VmQuota.QuotaForApplies | src/app/models/pool.rb:318-331 | the walk upwards finds the quota of the nearest pool that has one |
| VmQuota.AllocatedResources | src/app/models/vm_resource_pool.rb:39-72 | one pass gives the use of all machines but the excluded one, by recorded and by pending state |
| VmQuota.UseSplits | src/app/models/vm_resource_pool.rb:49-69 | the use of a pool is the use of the others plus the share of one machine, whatever that machine becomes |
| VmQuota.UseIsTheSum | src/app/models/vm_resource_pool.rb:49-69 | each column of the use is the sum of it over the machines that consume resources, the excluded one left out |
| VmQuota.AdmittedIff | src/app/models/vm_resource_pool.rb:93-116 | a machine is admitted if and only if it fits into the quota beside the others and some host has its memory and some host its cpus |
| VmQuota.ActionListIff | src/app/models/vm.rb:297-305 | an action is in the filtered list if and only if it starts where the queue leads and is neither start nor restore, or the machine fits into the quota and a host has its memory and one its cpus |
| VmQuota.QueueOutcome | src/app/models/vm.rb:338-346 | such an action is appended to the queue of its machine, and nothing else in the pool changes; any other leaves the pool as it was |
| VmQuota.CreateOutcome | src/app/services/vm_service.rb:97-129 | a machine of valid size is added at the end, with a start queued behind its creation exactly when that was asked for and it fits; otherwise the pool stays |
| VmQuota.DestroyOutcome | src/app/models/vm.rb:396-407 | a machine is removed exactly when its state is a destroyable one and no task leads it elsewhere |
| VmQuota.QueueKeepsInv | src/app/models/vm.rb:297-305 | an action from the filtered list keeps pending use within the quota |
| VmQuota.CreateKeepsInv | src/app/services/vm_service.rb:109-127 | so does creating a machine, started at once or not |
| VmQuota.EventKeepsInv | src/app/services/vm_service.rb:180-190 | so do the restart, which does not look at the quota, and every successful execution |
| VmQuota.DestroyKeepsUse | src/app/models/vm.rb:396-407 | deleting a machine that may be deleted leaves the pending use as it is |
| VmQuota.QuotaIsNeverExceeded | src/app/models/vm_resource_pool.rb:93-116 | over every run of creation, queueing, restart, execution and deletion, with hosts changing at will, pending use stays within the quota in each limited dimension |
| VmQuota.NearestQuotaIsNeverExceeded | src/app/models/pool.rb:159-166 | with any number of machine pools in one tree, over any interleaved run, each keeps its pending use within the quota of the nearest pool at or above it |
| VmQuota.CancelKeepsQuotaIff | src/app/services/vm_service.rb:270-277 | cancelling a queue keeps the quota exactly when the machine is no new consumer or the others leave room |
| VmQuota.UnsavedKeepsQuotaIff | src/task-omatic/taskomatic.rb:290-339 | a head that leaves its queue unsaved keeps the quota unless it was the last, was to give resources back, and the others have taken its room |
| VmQuota.CancelCanExceedQuota | src/app/services/vm_service.rb:270-277 | a run from an empty pool after which either of the two exceeds a quota for one machine |
| VmUptime.VmRow.SaveState | src/app/models/vm_observer.rb:33-93 | a change raises exactly on a missing timestamp that it needs, changing nothing; otherwise the machine is in the requested state with the change logged, and the time since the stamp is added exactly on leaving a running state or returning to one from unreachable |
| VmUptime.SaveOutcome | src/app/models/vm_observer.rb:45-93 | saving raises if and only if the timestamp is missing and the change leaves a running state, or returns to one from an unreachable period entered from one; otherwise state, log, total and timestamp are told for each kind of change |
| VmUptime.StepAccounted | src/app/models/vm_observer.rb:45-93 | one change keeps total, timestamp, log and history tied together, up to the time a stale return adds |
| VmUptime.RefusedIff | src/app/models/vm_observer.rb:45-93 | over any ordered changes a save raises exactly when a machine that came back without a timestamp then leaves the running states |
| VmUptime.NothingRefused | src/app/models/vm_observer.rb:45-93 | over ordered changes without a stale return no save raises: the history holds every change that differs from the state before it, and the machine is in the last requested state |
| VmUptime.UptimeIsExactIff | src/app/models/vm.rb:204-210 | the displayed uptime equals the time spent running, plus unreachable periods entered from and left to running states, now and as time passes, if and only if no change was a stale return |
| VmUptime.UptimeIsExact | src/app/models/vm.rb:204-210 | it is exact for every history in which no unreachable period entered while not running is left directly for a running state |
| VmUptime.StaleReturns | src/app/models/vm_observer.rb:72-89 | two histories in which the displayed uptime is wrong: no timestamp at all, and an old one |
| VmUptime.UpIffConsumingAndNotSuspended | src/app/models/vm_observer.rb:22-31 | uptime runs in exactly the states that consume quota, but for suspended and suspending |
| Membership.Host.constructor | src/app/models/host_observer.rb:22-27 | creation opens the first stay and logs its join |
| Membership.Host.Move | src/app/models/host_observer.rb:29-44 | a change of pool closes the stay and opens the next, and the log stays the log of the stays; no change logs nothing |
| Membership.GetRangesFromEventList | src/app/controllers/graph_controller.rb:147-178 | the loop over `range` and `joined` gives the recursive form of the ranges |
| Membership.RangesAreTheMembership | src/app/controllers/graph_controller.rb:147-178 | for any history, pool and window, the ranges cover exactly the times in the window at which the host was in the pool |
| Membership.RangesAreDisjoint | src/app/controllers/graph_controller.rb:147-178 | the ranges are ordered, do not overlap and stay inside the window |
| Membership.WindowCuts | src/app/models/host.rb:26-33 | a pool's events are those before the window, those the window query returns and those after, in this order |
| Membership.HistoryLogged | src/app/models/host_observer.rb:22-44 | a host's log is sorted, joins and leaves of one pool alternate, and the log is true to the history |
| HardwarePoolService.MoveHosts | src/app/services/hardware_pool_service.rb:92-124 | every host is either moved, with its membership log extended, or left as it was and listed once with its own reason; without the privileges nothing changes, and a missing pool is told apart from a refused one |
| HardwarePoolService.MovedOnlyIfGranted | src/app/services/hardware_pool_service.rb:105-109 | a host can leave its pool exactly when it has no machines, saving works and a grant to modify lies at or above the pool, and each reason is given in exactly its own case |
| VmHistory.HistoryTable.UpdateDomainState | src/db-omatic/db_omatic.rb:165-195 | whichever console call raises, what was saved before it stays and nothing after it happens |
| VmHistory.UpdateOutcome | src/db-omatic/db_omatic.rb:165-195 | running without an open record opens one at the time of the update; the first open record is closed by any other settled state unless its forward raises; nothing else changes |
| VmHistory.HistoryIsExact | src/db-omatic/db_omatic.rb:165-195 | over any updates with a non-decreasing clock at most the last record is open, the intervals are ordered and disjoint, and together they cover exactly the times at which the latest settling update said running |
| VmHistory.UpdateRecords | src/db-omatic/db_omatic.rb:171-191 | one update changes the recorded times only from its own time on |
| DbOmatic.Daemon.UpdateHostState | src/db-omatic/db_omatic.rb:239-307 | a registered host is marked and its entry synced; for an unknown host only the entry changes |
| DbOmatic.Daemon.UpdateObjectProps | src/db-omatic/db_omatic.rb:322-382 | an object not seen before is cached, live, in place of older ones of the same host or domain, and its host, if registered, is available; for a cached one only the synced flag of a domain changes |
| DbOmatic.Daemon.AgentHeartbeat | src/db-omatic/db_omatic.rb:404-410 | the agent's last heartbeat is remembered and nothing else changes |
| DbOmatic.Daemon.AgentDisconnected | src/db-omatic/db_omatic.rb:422-440 | the loop over the cache, whatever the order, times out exactly the live objects of the agent, makes their registered hosts unavailable, drops its heartbeat and changes nothing else |
| DbOmatic.Daemon.AgentConnected | src/db-omatic/db_omatic.rb:444-459 | the loop makes all objects of the agent live again, marking the hosts of those that were timed out or not yet synced available, and changes nothing else |
| DbOmatic.Daemon.CheckHeartbeats | src/db-omatic/db_omatic.rb:507-534 | visiting the agents in an arbitrary order always gives the same sweep |
| DbOmatic.SweepOneMore | src/db-omatic/db_omatic.rb:517-532 | marking one more agent extends a partial sweep, so the order does not matter |
| DbOmatic.PropsOutcome | src/db-omatic/db_omatic.rb:322-382 | what an update leaves in the cache, the heartbeats and the hosts, entry by entry, for a new and for a cached object |
| DbOmatic.MarkOutcome | src/db-omatic/db_omatic.rb:422-459 | what marking an agent leaves, entry by entry and host by host |
| DbOmatic.StepOutcome | src/db-omatic/db_omatic.rb:309-540 | what each event of a run leaves; after a timer turn exactly the agents heard of within thirty seconds have a heartbeat |
| DbOmatic.SweepLeavesOthers | src/db-omatic/db_omatic.rb:507-534 | a sweep changes no object of an agent without a heartbeat, and no host that no known agent reported |
| DbOmatic.MarkKeepsInv | src/db-omatic/db_omatic.rb:422-459 | marking an agent keeps cache and database in agreement |
| DbOmatic.PropsKeepInv | src/db-omatic/db_omatic.rb:322-382 | so does a property update, whether it adds, replaces or refreshes |
| DbOmatic.DatabaseAgreesAfterEveryRun | src/db-omatic/db_omatic.rb:309-540 | after startup, over every run of callbacks, timer turns and host registrations, cached hostnames are distinct, a synced node's host is available exactly while the node is not timed out, and an unsynced one's is not available |
| DbOmatic.SweepSortsAgents | src/db-omatic/db_omatic.rb:507-534 | after a sweep an agent silent for more than thirty seconds has no heartbeat and only timed out objects, any other keeps it and has live objects and available hosts |
| DbOmatic.SilentHostsUnavailable | src/db-omatic/db_omatic.rb:422-440 | the registered hosts of a silent agent's nodes are unavailable after the sweep |
| HostRegister.Daemon.UpdateHost | src/host-browser/host-register.rb:204-331 | with the stale entry found by search and re-keyed during iteration, the update does what taking out all entries of that hostname does, and goes through exactly when the host's row can be saved |
| HostRegister.Daemon.TakeStale | src/host-browser/host-register.rb:301-310 | stopping at the first match removes every entry with the hostname |
| HostRegister.Daemon.MarkAgent | src/host-browser/host-register.rb:178-202 | exactly the agent's entries change their active flag |
| HostRegister.UpdateKeepsInv | src/host-browser/host-register.rb:204-331 | an object that keeps its hostname keeps hostnames distinct, entries under their own key and cached hosts in the database, even when a save raises |
| HostRegister.UpdateCaches | src/host-browser/host-register.rb:296-329 | a successful update leaves the object's entry live under the reported name and uuid, removes exactly the other entries of that name and touches no other |
| HostRegister.UpdateOutcome | src/host-browser/host-register.rb:204-331 | for each of the four outcomes, when it comes about and what it leaves in cache and database: an object seen for the first time is cached when the row can be saved, and a row just created stays when the second save raises |
| HostRegister.UpdatedIff | src/host-browser/host-register.rb:204-331 | in a consistent registry an update of an object that keeps its name goes through if and only if the save works and the host is in the database or can be created |
| HostRegister.AgentOutcome | src/host-browser/host-register.rb:178-202 | an agent event changes the active flag of exactly the entries of the agent, and nothing in the database |
| HostRegister.CachedUpdateKeepsInvIff | src/host-browser/host-register.rb:204-331 | for a cached object that is exact: the name must be in the database and in no other entry |
| HostRegister.CacheStaysConsistent | src/host-browser/host-register.rb:217-237 | over every run in which object ids keep their hostnames, the case of a cached host missing from the database never comes up |
| HostNics.HostRow.UpdateNics | src/host-browser/host-register.rb:375-431 | the loops over the host's cards, with deletion from the list under iteration, update the rows as specified and keep row ids distinct |
| HostNics.MacsAreTheReported | src/host-browser/host-register.rb:375-431 | for any input, duplicates included, the host ends with exactly the reported addresses, upper-cased |
| HostNics.UpdateIsExact | src/host-browser/host-register.rb:375-431 | for distinct addresses, reported cards stay in place with new bandwidth and name, unreported ones go, new ones follow |
| HostNics.ScanDistinct | src/host-browser/host-register.rb:391-403 | for distinct addresses the element skipped after a deletion is never a match |
| HostNics.MacsStayDistinctIff | src/host-browser/host-register.rb:375-431 | the host ends with distinct addresses if and only if no address it lacks is reported twice and the reports of each card it has are never neighbours once those of earlier cards are taken out |
| HostNics.NeighboursDuplicate | src/host-browser/host-register.rb:391-403 | two neighbouring reports of a stored card leave a second record |
| HostNics.SeparatedMerge | src/host-browser/host-register.rb:391-403 | with another report between them they leave one |
| HostNics.DuplicateReportsDuplicate | src/host-browser/host-register.rb:420-430 | an address reported twice and not yet stored gets two rows |
| StorageRefresh.StorageTables.RefreshPool | src/task-omatic/taskomatic.rb:655-721 | the nested loops over scanned volumes, stopping at the first error, do the refresh that the properties below are about |
| StorageRefresh.RefreshIsSafe | src/task-omatic/taskomatic.rb:655-721 | even a refresh that raises deletes no row and doubles no pool and key; one that completes has every scanned physical and LVM key in its pool |
| StorageRefresh.OnlyReportedAdded | src/task-omatic/taskomatic.rb:655-721 | every row a refresh adds was reported by the scan, physical in the scanned pool or in the LVM pool of its name |
| StorageRefresh.RaisedKeepsEarlier | src/task-omatic/taskomatic.rb:691-697 | a refresh that raises has done everything before the volume at which it raises, and of that volume at most added the LVM pool |
| StorageRefresh.OneRowPerScannedKey | src/task-omatic/taskomatic.rb:655-721 | after a completed refresh every scanned key, physical or LVM, has exactly one row in its pool |
| StorageRefresh.LvmPoolsFound | src/task-omatic/taskomatic.rb:674-689 | a completed refresh knows exactly the LVM pools it knew and those named by scanned volumes, and no two share an id |
| StorageRefresh.LinksAreTheLast | src/task-omatic/taskomatic.rb:691-701 | after a completed refresh each row's link is the last one the scan assigned by path, or the one it had |
| StorageRefresh.RefreshFollowsPlan | src/task-omatic/taskomatic.rb:655-721 | a completed refresh leaves the tables that adding everything reported gives, links aside |
| StorageRefresh.RaisesIff | src/task-omatic/taskomatic.rb:691-697 | a refresh raises if and only if some scanned volume with an LVM pool has its row but no row has its path |
| StorageRefresh.LinkedIff | src/task-omatic/taskomatic.rb:691-701 | after a completed refresh a scanned volume's own row has its link exactly when the last scanned path that leads to the row names its LVM pool, or none does and the link was there |
| StorageRefresh.ScannedVolumesLinked | src/task-omatic/taskomatic.rb:691-701 | so where paths identify volumes the refresh completes and every scanned volume's own row carries its link |
| StorageRefresh.LaterVolumeRelinks | src/task-omatic/taskomatic.rb:691-701 | a later volume under the same path takes the link over |
| StorageRefresh.OwnRowLinkedIff | src/task-omatic/taskomatic.rb:691-701 | within one volume's turn, its own row gets the link exactly when its lookups by path and by key agree beforehand, or it was linked already |
| StorageRefresh.SharedPathMislinks | src/task-omatic/taskomatic.rb:691-701 | another pool's volume with the same path gets the link instead |
| StorageRefresh.RefreshTwice | src/task-omatic/taskomatic.rb:655-721 | a second refresh on the same scan changes nothing |
| StorageMovable.MovableIffUnused | src/app/models/storage_pool.rb:166-171 | on acyclic storage of any depth the recursion ends, and answers true if and only if no machine is attached to any volume reachable through volumes and their LVM pools |
| StorageMovable.EnterPool | src/app/models/storage_volume.rb:175-181 | going down into an LVM pool always enters a new one, which is why the recursion ends |
| StorageMovable.VolumeMovableMeans | src/app/models/storage_volume.rb:175-181 | a volume is movable if and only if it and everything below it is unused |
| HostScheduler.TaskOmatic.FindCapableHost | src/task-omatic/taskomatic.rb:142-194 | the loop collects exactly the capable hosts in order, and the counter moves only when a host is returned |
| HostScheduler.FailsIffNoneCapable | src/task-omatic/taskomatic.rb:183-190 | it raises if and only if no host meets all conditions, and otherwise returns one that does |
| HostScheduler.CapableInOrder | src/task-omatic/taskomatic.rb:151-180 | the capable hosts of a joined list are those of its parts in order, and of one host it is that host exactly when it is capable |
| HostScheduler.PicksRotate | src/task-omatic/taskomatic.rb:190-191 | consecutive picks run through the capable hosts cyclically from the counter's position |
| HostScheduler.EachHostOncePerRound | src/task-omatic/taskomatic.rb:190-191 | n calls over the same n capable hosts return each exactly once, whatever the counter |
| VncPorts.AvailableForwardVncPort | src/app/models/vm.rb:410-419 | the loop with its early exit gives the scan the lemmas below are about |
| VncPorts.AvailableIsUnused | src/app/models/vm.rb:410-419 | the port found is used by no machine, whatever is stored |
| VncPorts.LeastFreeIff | src/app/models/vm.rb:410-419 | it is the least free port from 5901 if and only if as many stored ports lie below that one as there are ports from 5901 up to it |
| VncPorts.DefaultSkipsPort | src/app/models/vm.rb:410-419 | one machine with the column's default zero makes the allocator skip the free port 5901 |
| VncPorts.DistinctPortsGiveLeast | src/app/models/vm.rb:410-419 | distinct stored ports from 5901 on always give the least free port |
| VncPorts.PortsStayDistinct | src/app/models/vm.rb:63-74 | over every run of allocations and deallocations the ports in use stay distinct and in range, so the validations never reject a save |
| VncPorts.StepOutcome | src/db-omatic/vnc.rb:55-68 | each allocation gives its machine a port from 5901 on that nobody held, each deallocation takes the port away, and no other machine changes |
| VncPorts.StoredPortsComplete | src/app/models/vm.rb:412-414 | the ordered query returns every stored port as often as it is stored |
| VncPorts.VmTable.AllocateForwardVncPort | src/db-omatic/vnc.rb:55-62 | one locked allocation gives the machine a port from 5901 on that nobody holds and changes no other |
| VncPorts.VmTable.DeallocateForwardVncPort | src/db-omatic/vnc.rb:64-68 | the port is free again, held by no machine; every other machine keeps its own, and ports in use stay distinct and in range |
| VncPorts.VmTable.Forward | src/db-omatic/vnc.rb:106-113 | the machine ends with a port from 5901 on that nobody held, or with none when that port was open already; the others keep theirs and ports in use stay distinct |
| EditScript.ProcessEditScript | anyterm/anyterm.js:154-182 | the loop gives the display of the original, or reports that the original never ends |
| EditScript.EndsWithinLimit | anyterm/anyterm.js:160-179 | for any script the loop ends within as many turns as the script is long, plus two, or never |
| EditScript.ScriptMeansItsOps | anyterm/anyterm.js:154-182 | for every list of operations and every display, interpreting the text form gives the display the operations mean, whatever the inserted text |
| EditScript.ReadsOp | anyterm/anyterm.js:161-165 | an encoded operation is read with its own letter and length, whatever comes before and after it |
| EditScript.DecimalRoundTrip | anyterm/anyterm.js:164 | a length survives being written in decimal and read back |
| EditScript.WalksPieces | anyterm/anyterm.js:160-179 | each well-formed piece of a script takes one turn, after which reading goes on right behind it, so nothing is read twice |
| EditScript.OtherLettersIgnored | anyterm/anyterm.js:160-179 | a command with any other letter is passed over, with nothing shown or skipped |
| EditScript.NegativeGoesBack | anyterm/anyterm.js:160-171 | deleting or keeping a negative length shows nothing and moves back in the display by that length |
| EditScript.LoopsForeverIff | anyterm/anyterm.js:160-179 | among scripts whose insertions have lengths made of digits, the loop runs for ever on exactly those that end in a command without a colon |
| EditScript.BackwardInsertLoops | anyterm/anyterm.js:172-178 | an insertion with a negative length that leads back to an earlier piece runs for ever as well |
| EditScript.ScriptsThatLoop | anyterm/anyterm.js:160-179 | one script of either kind |

## Left out

- The `lft`/`rgt` columns of the nested-set plugin: its code is not part of this model.  Ids are taken to grow from parent to child and `all_children` to come in id order.
- Mass assignment of `inherited_from_id` through `svc_create`, and the authorization checks of the permission calls.
- PermissionRuns.StepKeepsInv: destroying an inherited row directly is excluded, because it does not keep the invariant; `PermissionRuns.RevokeKeepsInvIffPrimary` says so exactly.
- PermissionRuns.RunKeepsInv: the same exclusion, at every step of the run.
- PermissionSystem.Database.RevokeRow: asks for back-pointers that lead to smaller ids, which every reachable table has (`PermissionSystem.InvariantLeadsBack`); on a table with a cycle of back-pointers the original recursion does not end.
- PoolForest.FullSetNested: the smart-pool branch, the selected pool and the attributes of the elements.
- PoolForest.EveryPoolPlacedOnce: asks for parents before children, as a nested-set query lists them.
- VmLifecycle.QueueStaysChainedIff: cancelling one task in the middle of a queue, and state changes reported by the bus.
- VmQuota.QuotaIsNeverExceeded: sizes and quota are fixed, and runs in which a queue is cancelled or a head leaves unsaved are excluded because they can exceed the quota.
- VmQuota.NearestQuotaIsNeverExceeded: an ancestor's quota is applied to each machine pool by itself, as the code does; sums over sibling pools are not limited there either.
- VmQuota.AllocatedResources: the storage sum, which starting a machine does not check.
- VmQuota.AdmittedIff: the order of hosts without a memory value.
- The check at execution time with `use_pending_values` set to false: nothing calls it.
- VmUptime.UptimeIsExact: times are integers and both clock readings of one save agree; rounding into the column and events with equal timestamps are not modelled.
- Membership.RangesAreTheMembership: events with the same time are taken in the order they were logged, which the query by `created_at` does not promise.
- HardwarePoolService.MoveHosts: storage pools are moved by the same loop and are not repeated; attributes not related to the pool are left out.
- VmHistory.HistoryTable.UpdateDomainState: the machine's own row, saved after the history part, and the host and port columns of a record.
- DbOmatic.Daemon.UpdateHostState: the hypervisor, architecture and memory columns, and saves that hit a stale lock.
- DbOmatic.Daemon.UpdateObjectProps: properties of a cached object other than a domain's state, which the rest of the model does not read.
- DbOmatic.DatabaseAgreesAfterEveryRun: each object's first update carries properties, the hostname, uuid and name of an object never change, and saves hit no stale lock; machine rows, statistics and the delayed check for dead machines are not part of the state.
- HostRegister.CacheStaysConsistent: the daemon's heartbeat timer, cpu records and host attributes other than hostname and uuid.
- HostNics.MacsStayDistinctIff: the reported list names each bus object once, as the query it comes from does (`src/host-browser/host-register.rb:151`).
- HostNics.HostRow.UpdateNics: saves of cards are taken to succeed.
- StorageRefresh.RefreshIsSafe: sizes, permissions and states of volumes, and errors of the bus during the refresh.
- StorageRefresh.ScannedVolumesLinked: scans in which paths are shared, which `StorageRefresh.LinkedIff` decides.
- StorageMovable.MovableIffUnused: storage that is its own carrier, on which the original recursion does not end.
- HostScheduler.TaskOmatic.FindCapableHost: the bus answers are inputs and do not change during one call.
- VncPorts.VmTable.Forward: the firewall rules and the closing of a forward.
- EditScript.ProcessEditScript: lengths are digits with or without a sign, and anything else is taken as not a number; fractions, exponents, hexadecimal and surrounding blanks, which JavaScript also reads as numbers, are not modelled.
- EditScript.LoopsForeverIff: negative lengths of insertions; `EditScript.EndsWithinLimit` decides every script, and `EditScript.BackwardInsertLoops` covers those that lead back to a piece.
- Message bus, libvirt, iptables, Kerberos, LDAP, Cobbler and full-text search: their answers are inputs, or they are left out.
- Controllers other than the ranges, views, routes, migrations, picklists, unit conversions and format validations: they would only add easy members.
