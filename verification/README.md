# Verification of uresourced and cgroupify

uresourced raises the memory protection, CPU weight and IO weight of users with an active graphical session, and of
the applications of such a user; cgroupify gives every process of a unit its own control group. Both keep a little
state of their own beside a ledger of what the outside (systemd, the kernel) was last told. This project models the
two programs and proves that state and ledger stay in step over whole runs.

`dafny verify dfyconfig.toml` checks everything.

| file | part of the program |
|---|---|
| `options.dfy`, `sets.dfy`, `chars.dfy` | an option type, a counting lemma, digits |
| `uids.dfy` | the wrapping comparison of user ids, sorting and bisection with it |
| `allocation.dfy` | the calls of one update as a value, the ledger, the minimal diff |
| `reconcile_safety.dfy` | `user.slice` covers its users after every single call; cap arithmetic |
| `reconcile_runs.dfy` | runs of updates against a changing systemd; incremental equals recomputed |
| `sd_login.dfy` | collection of users from logind, debounce timer |
| `lifecycle.dfy` | the pending-call count from start to finalize |
| `manager.dfy` | the manager object, its update loops, start, stop and flush |
| `convergence.dfy` | notices, timer, handlers and reconciler as one system |
| `memory_config.dfy` | memory amounts in the configuration |
| `manager_config.dfy` | the manager's part of the configuration file |
| `cgroup_kernel.dfy` | cgroupify's control points interleaved with fork, exit and pid reuse |
| `procs_text.dfy` | the text of `cgroup.procs` and the scan of a 1023-byte prefix in place |
| `cgroupify.dfy` | moving one process, emptying one group by repeated reads, the periodic tick |
| `app_index.dfy` | the two directory tables beside the kernel's watches; the recursive walk |
| `inotify_records.dfy` | variable-length records in a byte buffer |
| `app_monitor.dfy` | the monitor object: tables, walk, event handler, buffer loop |
| `app_policy.dfy` | focus, audio and game events and the weights they lead to; stop |
| `app_records.dfy` | the same as objects changed in place |
| `unit_path.dfy` | from a process to its unit's directory and from there to the unit's name |

The pattern is the same throughout. Objects are classes whose methods do what the C functions do, in the same order,
and whose postconditions tie the new state to a function of the old one. About those functions, and about runs of
them, the lemmas state what the program is for.

Assumptions, as they appear in `requires` clauses: the user ids in play lie in one window of 2^31 values; between two
updates nobody else changes units of users the manager has stored; the kernel fills the inotify buffer with whole
records; one unit name belongs to one application path. Where a property needs more than the code guarantees, the exact
condition is proved instead and a concrete run shows that it can fail:

* `uid_cmp` orders two ids as numbers if and only if their difference leaves the sign bit alone. A search finds an id
  if and only if the signs on its way lead to it. After sessions of the users 0, 1, 2^30 and 9 * 2^28 it misses the
  last one and a further session adds that user again.
* `user.slice` covers its users after every call of every run and of the stop, up to the stop's very last call; after
  that one if and only if the list of all users has every protected one. logind is read twice, so a graphical user can
  be missing from it; that user keeps the memory.
* What is stored when it is quiet is what the last collection read. A read that fails loses users, never invents one,
  and is not repeated before logind changes.
* The flush at exit ends if and only if the bus callback ran before the stop. A stop before that counts calls that
  are never answered.
* The product behind `user.slice` wraps at 64 bits: two users with 2^63 bytes each leave it at nothing.
* An active user's slice gets the weight of a recomputation if and only if the weight is configured, or no update has
  set the user inactive since the weight was last unset. A weight is not configured if and only if no file could be
  read, or the file gives the ignored value -2^31 itself; a missing key is the weight 0, and 0 is sent.
* An application's last weights are those of its present focus and flags if and only if it has the focus it had when
  it was last told of, or focus makes no difference. An event that reads the focus and tells nobody can change that,
  until the next one that tells. Stop misses the application if and only if it was last told of with the focus, and
  has neither focus nor flags now.
* Boosted weights are in systemd's range if and only if default plus increment is; the clamps only see to the active
  weight.
* Adding a directory that is watched already ends with it unwatched. The recursive walk ends if and only if every
  directory it goes to can be watched.
* The path cut at a unit's name is the unit's own if and only if the name occurs nowhere above, and is not an
  escaped row of underscores. Its name comes back from the cut path if and only if the first occurrence is behind the
  user service and starts a component or follows its escape. The unit 0.service of user 1000 occurs in
  user@1000.service; its processes have a directory without a name.
* A memory amount is what it says if and only if it fits in 64 bits (63 without a unit); a negative percentage asks for
  all memory.

## Model

| member | source | states |
|---|---|---|
| Uids.UidCmpAgrees | src/utils.c:7-11 | the comparison is zero exactly for equal ids, and has the sign of the numeric order exactly when the difference does not reach the sign bit |
| Uids.UidCmpNotTransitive | src/utils.c:7-11 | it is not an order on all ids: three of them form a cycle |
| Uids.SortOrders | src/r-sd-login.c:155-156 | in a window of 2^31 ids, sorting by the comparison orders by number |
| Uids.SearchDecides | src/r-manager.c:206-226 | in a window, the binary search of a sorted array decides membership |
| Uids.SearchExactly | src/r-sd-login.c:137 | on any array, sorted or not, a search finds an id iff every element it meets compares to the side of a place where the id is |
| Uids.OrderedSearchDecides | src/r-sd-login.c:137 | a search decides membership of any id wherever the comparison orders the elements among each other, also across the wrap to 0 |
| Uids.SearchMissesOutsideWindow | src/r-sd-login.c:137-141 | sessions of four users leave an array that has all of them and misses one when searched; a further session of that user adds it a second time |
| Allocation.UserCallsLedger | src/r-manager.c:150-180 | calls for a list of users address each user's slice and service once per occurrence, nothing else, and leave the allocation that activity and graphical session ask for |
| Allocation.UpdateTold | src/r-manager.c:135-240 | what a whole update last tells each unit: by the place of its user in old and new arrays, and `user.slice`, where the number changes, ignored weights and the capped product for the new number |
| Allocation.UpdateCount | src/r-manager.c:182-240 | how often an update addresses each unit, also with duplicates and when forced |
| Allocation.MinimalDiff | src/r-manager.c:194-232 | an unforced update addresses exactly the users of (G-G') + ((A'-G')-A) + (G'-G), each once, and `user.slice` once iff the number of graphical users changed |
| Allocation.UnchangedIssuesNothing | src/r-manager.c:194-232 | an unchanged snapshot issues no call |
| ReconcileSafety.GrantSafeIff | src/r-manager.c:221-228 | granting one more user memory is safe iff `user.slice` was computed for more users than are protected |
| ReconcileSafety.BudgetSafeIff | src/r-manager.c:230-232 | computing `user.slice` for n users is safe iff no more are protected |
| ReconcileSafety.UpdateSafe | src/r-manager.c:182-240 | after each single call of an update the number of protected users is at most the number `user.slice` was last computed for |
| ReconcileSafety.StopWithdraws | src/r-manager.c:606-615 | after a stop exactly the protected users missing from the list of all users stay protected |
| ReconcileSafety.StopSafe | src/r-manager.c:606-615 | every call of a stop is safe up to the last one, and the last one iff the list of all users has every protected one |
| ReconcileSafety.UserSliceCoversUsers | src/r-manager.c:135-148 | in a safe state without overflow `user.slice` has at least MIN(sum over any users' slices, cap) |
| ReconcileSafety.UserSliceExact | src/r-manager.c:135-148 | `user.slice` memory is MIN(n times amount, cap) iff the product does not wrap to below the cap |
| ReconcileSafety.UserSliceWraps | src/r-manager.c:135-148 | a configuration for which one user gets memory and two get none |
| ReconcileSafety.UserSliceMonotone | src/r-manager.c:135-148 | never above the cap; monotone in the number of users while nothing wraps |
| ReconcileRuns.RunGood | src/r-manager.c:182-246 | every run of updates, forced or not, and of changes elsewhere keeps ledger, count and world in step |
| ReconcileRuns.ActiveWeightIff | src/r-manager.c:92-109 | after a run an active user's slice has the weight of a recomputation iff it is configured or the history left it unset |
| ReconcileRuns.IncrementalIsScratch | src/r-manager.c:182-246 | after any run every known user's slice has the memory of a full recomputation, and all its properties iff the user is inactive or both weights are configured or left unset; no slice or service of anybody else was last told anything but the inactive allocation, `user.slice` has the current number, and every call on the way was safe |
| ReconcileRuns.UnitsByFields | src/r-manager.c:150-180 | after any run a known user's slice has the configured memory and weights if the user is graphical, and otherwise no memory and the weight 100; a graphical user's service likewise by whether a session was there when it was last told |
| ReconcileRuns.ForcedUpdateRefreshesServices | src/r-manager.c:490-506 | a forced update leaves every graphical user's service as a recomputation would |
| ReconcileRuns.ServiceRecomputedIff | src/r-manager.c:161-174 | after any run an active user's service has the memory, and with both weights configured all properties, of a recomputation iff the answer about the graphical session at the last telling is today's, or the allocations agree |
| ReconcileRuns.IgnoredWeightRemembersHistory | src/r-manager.c:286-294 | without a readable file, or with the ignored value in it, a run that differs from the recomputation |
| ReconcileRuns.RunThenStop | src/r-manager.c:606-629 | any run followed by a stop is safe after every call up to the last, after the last one iff everyone protected is listed, and exactly then nobody is protected |
| ReconcileRuns.EveryCallOfRunCovers | src/r-manager.c:135-148 | after every single call of any run and the stop, `user.slice` has at least MIN(what any users' slices have together, cap), if the largest number of users fits in 64 bits |
| ReconcileRuns.UserSliceKeepsWeights | src/r-manager.c:135-148 | over every run and the stop after it `user.slice` keeps the CPU and IO weight it had, has the memory it was last told, and none after the stop |
| ReconcileRuns.StopMissesUnlistedUser | src/r-manager.c:606-615 | a run after which a user keeps the memory beyond the stop |
| ManagerConfig.ReadConfigFile | src/r-manager.c:381-413 | memory amounts with 0 where they cannot be read, weights with 0 where there is no integer, and without a file no memory and ignored weights |
| ManagerConfig.ConfigByKeys | src/r-manager.c:381-413 | each amount and each weight comes from its own key; without a file there is no memory and both weights are ignored |
| ManagerConfig.IgnoredIff | src/r-manager.c:286-294 | a weight is ignored iff no file was read or the file gives the ignored value; a missing key is 0 |
| SdLogin.CollectedIgnoresOrder | src/r-sd-login.c:73-156 | what is collected does not depend on the order of seats, sessions or users |
| SdLogin.SearchDecidesGraphical | src/r-sd-login.c:88-141 | after a collection the search finds exactly the users with a readable active session on a readable graphical seat |
| SdLogin.RSdLogin.LogindChanged | src/r-sd-login.c:172-186 | the old timer is removed and one new one outstanding |
| SdLogin.RSdLogin.CollectSeat | src/r-sd-login.c:88-143 | the seat's readable active users are collected in order, whatever the ids |
| SdLogin.RSdLogin.LogindQuiet | src/r-sd-login.c:62-170 | the arrays are refilled with exactly what the reading says, both empty on a fatal error |
| Lifecycle.EveryRunAccounted | src/r-manager.c:484-638 | in every reachable state, the failed registration included, the count is calls in flight, calls lost and notifications owed |
| Lifecycle.DeliveriesOnly | src/r-manager.c:631-638 | each delivery lowers the count by exactly one and touches no lost call |
| Lifecycle.SomethingComes | src/r-manager.c:631-638 | while more is pending than was lost, a notification is still to come |
| Lifecycle.StateByEvents | src/r-manager.c:510-629 | in every reachable state connection, name, object, notifications owed, pending count and requests in flight are what the events so far say; the connection is there from the bus callback, registered or not, to the stop |
| Lifecycle.FlushEndsIffConnected | src/r-manager.c:606-638 | the flush after a stop ends, at zero, iff the bus callback ran before, which is when the connection is there |
| Lifecycle.OrdinaryLifeEnds | src/r-manager.c:510-638 | start, bus, stop is possible, whether or not the object can be registered, and its flush ends |
| Lifecycle.StopWithoutBusHangs | src/r-manager.c:573-638 | a stop before the bus was acquired never flushes |
| Manager.RManager.SetUsersOutside | src/r-manager.c:202-228 | one loop of an update: calls for exactly the users outside, in order |
| Manager.RManager.ReconcileUsers | src/r-manager.c:194-232 | the phases in order issue exactly the calls of the update, and leave the ledger safe after every one of them |
| Manager.RManager.UpdateUserAllocations | src/r-manager.c:182-240 | the log grows by the calls of the diff against the stored arrays, which become fresh copies of the login object's; the ledger stays safe and fits them |
| Manager.RManager.HandleDBusMethodCall | src/r-manager.c:490-506 | the forced update: every graphical user's slice is told the active allocation, the service by whether there is a session |
| Manager.RManager.Stop | src/r-manager.c:606-629 | the calls of a stop, arrays emptied, name and object given up, connection dropped |
| Manager.RManager.Flush | src/r-manager.c:631-638 | it ends iff no call was lost; otherwise it blocks with exactly the lost ones pending |
| Manager.Refresh | src/r-manager.c:242-246 | quiet after a change: the arrays are refilled in place and the update is still told the difference to before |
| Manager.Quit | src/main.c:152-156 | stop and flush end with nothing pending, as finalize asserts, iff the connection was there; the ledger ends safe with nobody protected iff everyone protected was listed |
| Convergence.FurtherHandlersAreSilent | src/r-manager.c:555-570 | however many handlers are connected, only the first issues calls |
| Convergence.RunInv | src/r-sd-login.c:62-186 | in every run there is one timer at most, due 100 ms after the last notice, and the arrays are current when it is quiet |
| Convergence.MovesAreEvents | src/r-manager.c:242-246 | a run of the whole daemon is, for the reconciler, a run of updates and changes elsewhere |
| Convergence.QuietMeansConverged | src/r-sd-login.c:62-186 | whenever it is quiet and the bus name was acquired, what the manager stored is what the last collection read of logind as the moves left it, nobody who is not there, and what systemd was told is the recomputation from that |
| Convergence.BusUpdateRefreshesServices | src/r-manager.c:490-506 | after the bus method every graphical user's service has the memory for today's answer |
| Convergence.FailedReadForgets | src/r-sd-login.c:160-169 | a collection that fails can be the last one before it is quiet; then everybody is forgotten although logind did not change |
| Convergence.QuietLasts | src/r-sd-login.c:172-186 | once quiet, the daemon alone changes nothing any more |
| Convergence.GetsQuiet | src/r-sd-login.c:172-186 | however the daemon goes on alone, it is quiet after 103 moves at the latest |
| Convergence.QuietWithin100ms | src/r-sd-login.c:172-186 | as long as the daemon going on alone is not quiet, at most 100 ms have passed |
| Convergence.NeverStuck | src/r-sd-login.c:172-186 | the daemon always has a move to make |
| MemoryConfig.ConfigGetMemory | src/r-manager.c:307-362 | the amount of the text, or failure with 0 |
| MemoryConfig.PlainExact | src/r-manager.c:322-332 | a number without a unit is itself iff at most 2^63 - 1 |
| MemoryConfig.UnitExact | src/r-manager.c:332-346 | n with the k-th of the letters K, M, G, T is n times 1024^k iff that fits in 64 bits |
| MemoryConfig.OtherUnitIsBad | src/r-manager.c:332-357 | any other character behind the number but a percent sign makes it an error |
| MemoryConfig.NoNumberIsBad | src/r-manager.c:314-330 | a missing key, and a text that does not start with a number, are errors |
| MemoryConfig.SignAndSpaces | src/r-manager.c:322-330 | white space and a plus sign in front of a number make no difference |
| MemoryConfig.NegativeIsHuge | src/r-manager.c:322-330 | a negative number -n without a unit is 2^64 - n, and 2^63 from -2^63 on |
| MemoryConfig.PercentExact | src/r-manager.c:348-350 | p% is floor(min(p, 100) * ram / 100) iff the product fits in 64 bits |
| MemoryConfig.PercentWithinRam | src/r-manager.c:348-350 | no percentage, negative or overflowing, is above the memory there is |
| MemoryConfig.NegativePercentIsEverything | src/r-manager.c:348-350 | a negative percentage is the same as 100% |
| CgroupKernel.StepInv | cgroupify/cgroupify.c:167-261 | every step of cgroupify or the kernel keeps every empty group watched with an event pending, or in hand |
| CgroupKernel.ReaperForgetsNothing | cgroupify/cgroupify.c:167-261 | in every interleaving, outside the two functions a created group exists iff its watch is active, and an empty one has an event pending |
| CgroupKernel.OnlyNamedProcessMoves | cgroupify/cgroupify.c:192-246 | exactly the write moves a process, the one it names, into the group of its name, from another; processes come by forks into their parent's group and go by exits |
| CgroupKernel.DirectoriesComeAndGo | cgroupify/cgroupify.c:167-261 | a directory appears by a mkdir, and disappears by an rmdir that is busy with it, when it is empty |
| CgroupKernel.EnvironmentIsFree | cgroupify/cgroupify.c:167-261 | forks, exits and events for nothing may come at any control point, and an exit signals exactly the watched group it empties |
| CgroupKernel.OwnGroupIsFinal | cgroupify/cgroupify.c:192-246 | a process in its own group stays there until it exits |
| CgroupKernel.ForeignDirectoriesStay | cgroupify/cgroupify.c:201-204 | directories cgroupify did not make are neither removed nor watched |
| CgroupKernel.DrainReapsAll | cgroupify/cgroupify.c:167-190 | events dispatched in any order take three steps each at most, and once all are, exactly the empty groups are reaped |
| CgroupKernel.DrainGoesOn | cgroupify/cgroupify.c:167-190 | as long as an event is pending or in hand the callback has a next step |
| ProcsText.PrefixYieldsWholePids | cgroupify/cgroupify.c:287-302 | a prefix of the text, cut anywhere, yields exactly the pids whose lines it has whole |
| ProcsText.RoundTrip | cgroupify/cgroupify.c:295-302 | the whole text yields every pid |
| ProcsText.NextToken | cgroupify/cgroupify.c:296-302 | the next token, terminated in place; the rest of the buffer is still the text |
| Cgroupify.OneReadShows | cgroupify/cgroupify.c:287-307 | one read shows every misplaced process or at least 92 |
| Cgroupify.Mover.MoveToSubgroup | cgroupify/cgroupify.c:192-261 | a run of the transition system; an existing directory is left alone, a live process ends in its own group, otherwise no directory is left |
| Cgroupify.Mover.ReadPass | cgroupify/cgroupify.c:275-315 | exactly the processes shown are moved and counted, or it stops at one that is blocked |
| Cgroupify.Mover.MovePidsToSubgroups | cgroupify/cgroupify.c:263-322 | it fails iff the group is gone or one of the misplaced processes is blocked; otherwise exactly the misplaced processes are placed, within n / 92 + 2 reads |
| Cgroupify.Mover.EmptyRoot | cgroupify/cgroupify.c:391-398 | it succeeds iff no process of the unit's own group is blocked, and iff it leaves none there |
| Cgroupify.Mover.MovePidsFromSubgroups | cgroupify/cgroupify.c:324-353 | an undisturbed tick puts every process in its own group iff none that had to move found its directory taken |
| AppIndex.AddWatchesIffNew | src/r-app-monitor.c:80-96 | a path is watched after being added iff it was not before; others keep theirs |
| AppIndex.DeleteUndoesAdd | src/r-app-monitor.c:372-380 | deleting undoes adding a new path |
| AppIndex.NoWatchLeaks | src/r-app-monitor.c:73-104 | after any sequence of events the tables are mutual inverses and no live watch is outside them |
| AppIndex.DirPathsExact | src/r-app-monitor.c:106-140 | the walk goes to exactly the directories reachable by names |
| AppIndex.WalkEndsIffWatchable | src/r-app-monitor.c:106-140 | with failing adds tried again for ever, the walk ends iff every directory it goes to can be watched |
| AppIndex.WalkAdds | src/r-app-monitor.c:106-140 | whenever the walk ends, it has added exactly what it went to |
| AppIndex.ReachedAll | src/r-app-monitor.c:106-140 | what is reached before a directory that cannot be watched is everything if there is none |
| AppIndex.StartCoversTree | src/r-app-monitor.c:413-420 | after a start that ends exactly the reachable directories are indexed and watched, with records for those not ending in `.slice` |
| InotifyRecords.ParseSerialised | src/r-app-monitor.c:400-408 | parsing what was serialised gives back every record, in order |
| InotifyRecords.FirstRecord | src/r-app-monitor.c:400-408 | descriptor, mask, cookie and length are the words at 0, 4, 8 and 12, the name starts at 16, and the next record follows it |
| InotifyRecords.SerialiseParsed | src/r-app-monitor.c:400-408 | whatever parses is the serialisation of the result |
| AppMonitor.RAppMonitor.InotifyAddCgroupDir | src/r-app-monitor.c:73-104 | fails without change if no watch can be had, otherwise the add of the index |
| AppMonitor.RAppMonitor.InotifyAddRecursiveWatchOnDir | src/r-app-monitor.c:106-140 | the recursion adds what it reaches, parents first, and ends iff every directory below can be watched |
| AppMonitor.RAppMonitor.HandleInotifyEvent | src/r-app-monitor.c:342-381 | each of the three masks does its operations and any other none; a new directory that cannot be watched is still walked; it ends iff the walk does |
| AppMonitor.DeletedEvent | src/r-app-monitor.c:372-380 | after a delete event the path is in none of the tables and unwatched, and every other path has what it had |
| AppMonitor.CreatedEvent | src/r-app-monitor.c:366-370 | after a create event on a watchable tree exactly the directory and what is reachable below it are indexed beside what was, with records for those not ending in `.slice`; of these exactly those not watched before are watched, and of all others those that were |
| AppMonitor.AttributeEvent | src/r-app-monitor.c:359-364 | an attribute event on a directory below the root makes its record and nothing else |
| AppMonitor.OtherEvent | src/r-app-monitor.c:342-381 | an event without a name or with any other mask changes nothing |
| AppMonitor.CNameIsText | src/r-app-monitor.c:353-355 | the name used is the bytes up to the padding |
| AppMonitor.HandledOneByOne | src/r-app-monitor.c:400-408 | the records of a buffer are handled one by one, each in the tables its predecessors left |
| AppMonitor.RAppMonitor.ReceivedInotifyData | src/r-app-monitor.c:383-411 | the pointer loop stays in bounds and handles the records there in order, up to one whose handling does not end; if there is none, and only then, it ends, exactly at the end of what was read |
| AppPolicy.WeightsInRange | src/r-app-policy.c:158-174 | whatever the file says, all weights the policy can give are in [1, 10000] iff default plus increment is |
| AppPolicy.BoostedDefaultOutOfRange | src/r-app-policy.c:158-174 | a file with a weight of the policy out of range |
| AppPolicy.EverySentInRange | src/r-app-policy.c:60-107 | everything sent after any trace is in range iff default plus increment is |
| AppPolicy.DefaultBelowActiveInRange | src/r-app-policy.c:158-174 | everything sent is in range whenever the default is at most the active weight |
| AppPolicy.ConfigByKeys | src/r-app-policy.c:130-185 | each weight comes from its own key, cut to 1 to 10000, and each boost from its own, cut to what the active weight of its kind leaves |
| AppPolicy.StepInSync | src/r-app-policy.c:83-107 | an event keeps what was sent in step with focus and flags iff it does not read a changed focus silently |
| AppPolicy.NextInSync | src/r-app-policy.c:83-107 | the same for the next event in every state that can be reached in step |
| AppPolicy.RunInSync | src/r-app-policy.c:83-107 | after any interleaving an application's last weights are the policy of its present focus and flags iff the focus is that of its last telling, or makes no difference |
| AppPolicy.SentByFields | src/r-app-policy.c:83-107 | the weights last sent, CPU and IO each: active or default by the focus of the last telling, plus the boost if the last word on audio or game says so |
| AppPolicy.RecordByFields | src/r-app-monitor.c:198-262 | a record after an event of its own: time and weights of the files, 100 where unreadable, or the policy's numbers if others are told |
| AppPolicy.TellingRegains | src/r-app-policy.c:83-107 | whatever was lost before, the next event that tells of an application puts it right |
| AppPolicy.StopRestoresDefaults | src/r-app-policy.c:198-207 | after any interleaving stop restores the defaults iff the application was not last told of with the focus, or has focus or a flag now, or focus makes no difference |
| AppPolicy.StopByFields | src/r-app-monitor.c:307-311 | at stop every application with focus or flag is sent the two default weights, and no record keeps either |
| AppPolicy.LostTrackOutlivesStop | src/r-app-policy.c:198-207 | a silent loss of focus leaves the active weights beyond the stop |
| AppPolicy.BitsAreFlags | src/r-app-monitor.h:11-15 | setting and clearing bits of the enumeration is setting and clearing two flags |
| AppPolicy.FlagsAreLastVerdicts | src/r-pw-monitor.c:125-139 | after any trace a flag is set iff some event set it and none behind that cleared it or deleted the directory |
| AppPolicy.AudioGameCommute | src/r-game-monitor.c:37-57 | an audio and a game event on one application commute, down to what was last sent |
| AppPolicy.DistinctAppsCommute | src/r-app-policy.c:83-107 | any two events on different applications commute |
| AppRecords.RAppPolicy.ReadConfigFile | src/r-app-policy.c:130-185 | the clamped configuration; unreadable keys or files leave the defaults |
| AppRecords.Daemon.HandleAttrib | src/r-app-monitor.c:359-364 | the attribute event: the record is refreshed and told |
| AppRecords.Daemon.HandleCreated | src/r-app-monitor.c:98-99 | the creation event: a record, and nobody told |
| AppRecords.Daemon.HandleDelete | src/r-app-monitor.c:372-380 | the deletion event: the record goes |
| AppRecords.Daemon.NodeEventInfo | src/r-pw-monitor.c:121-139 | the audio event: running sets the flag, idle and suspended clear it, other states tell nobody |
| AppRecords.Daemon.BoostGameFromPid | src/r-game-monitor.c:37-57 | the game flag is set or cleared and told |
| AppRecords.Daemon.ResetAllApps | src/r-app-monitor.c:307-311 | walking the table in any order is the reset of all records at once |
| UnitPath.TokensOfJoin | src/utils.c:91-111 | tokenising a path gives back its components |
| UnitPath.FirstCandidateNames | src/utils.c:92-111 | the first component behind a user service that is neither one nor a slice gives the name |
| UnitPath.NoCandidateNoName | src/utils.c:92-111 | where no component is behind a user service and neither one nor a slice there is no name |
| UnitPath.UnitRoundTrip | src/utils.c:81-114 | for every path of a front, a user service, slices, an escaped or plain unit and anything below, the unit's name is found |
| UnitPath.NameBehindUserService | src/utils.c:92-109 | the same, with user services told by `user@` in front and `.service` at the end, and slices by `.slice` at the end |
| UnitPath.CutPathRoundTrip | src/utils.c:74-76 | the cut path is the unit's own iff the name occurs nowhere above and is not an escaped row of underscores; the unit's own path tells the name |
| UnitPath.NameComesBack | src/utils.c:74-114 | a path cut at the first occurrence of the unit's name tells that name again iff the occurrence is behind the user service, and starts a component or follows nothing of it but the escape |
| UnitPath.ProcessToUnitName | src/utils.c:49-114 | the same from a process's control group to its unit's directory and from there to the name |
| UnitPath.MisledBy | src/utils.c:49-114 | every unit whose name ends the name of its user service has a directory without a name |
| UnitPath.EarlierOccurrenceMisleads | src/utils.c:49-114 | the unit 0.service of user 1000 has a directory without a name |
| UnitPath.GetUnitNameFromPath | src/utils.c:81-114 | the loop finds exactly the name of the tokens |

## Left out

- GDBus, GObject, the GLib main loop, PipeWire, libsystemd and the kernel are ledgers, counts of what is owed, or inputs; their internals are not modelled.
- Unit names are a datatype (`user.slice`, `user-N.slice`, `user@N.service`); printing them is not modelled (the program prints ids from 2^31 up as negative numbers).
- `user_has_systemd_graphical` is an input of an update, one answer per user and update, although the program asks anew at each call.
- Sorting is modelled as an insertion sort with the program's comparison; inside a window the result is the only sorted one. Outside one, other ways of sorting may give another result; insertion and merge sort leave an array whose neighbours are in order, like that of the counterexample, as it is.
- Logging, drop-in files, loading of key files, `/proc/meminfo`, command lines and the resolution of a unit's control group.
- The keys of `SessionSlice` and what they fall back to; they only end up in a drop-in file.
- A request that systemd refuses, a weight of 0 for instance; every request is taken as carried out.
- Paths of the application monitor are sequences of components, so the prefix test against the root is by component and not by character.
- Whether a directory can be watched does not change while a walk tries it again and again; there the methods return that they do not end.
- The weights of services where the configuration ignores them; `ReconcileRuns.ServiceRecomputedIff` says of them nothing but the memory.
- A directory tree that changes while one event is handled; `AppIndex.AddWatchesIffNew` says what a second add of the same path does, which is why full coverage after racing events is not claimed.
- The two application models share their events: `app_monitor.dfy` has the tables and watches, `app_records.dfy` the contents of the records.
- Directories below a unit yield the unit's name again; the properties about what was sent are for applications with distinct names.
- A unit that goes away takes what it was told with it: a delete event clears the ledger for its name.
- Errors of rmdir other than "busy" and "no such directory", migration by third parties, groups nested below a process's group, and read errors, at which cgroupify exits.
- `Cgroupify.Mover` runs undisturbed by other processes and takes the outcome of each move from an input; interleavings with the environment are the subject of `CgroupKernel`, of which its moves are proved to be runs.
- A pid has at most ten digits.
- Words in an inotify record are taken as little-endian; the program reads them in the machine's own order.
- Where the unit's name does not occur in the path at all, the program computes with a null pointer; the model has no path then.
- Surrounding white space of control group and unit names, which the program strips, and units without a name.
- The boost flag says what the last audio node reported, not whether any node is running; the program keeps no more.
- Memory management.
