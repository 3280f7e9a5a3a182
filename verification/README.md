# PGAIO: a verified model of its algorithms and protocols

PGAIO is a Go dashboard for one PostgreSQL server. Between the SQL and the HTTP handlers it holds a number of
self-contained algorithms and state machines. This project models those in Dafny 4.11 and proves what they are meant
to keep. `dafny verify dfyconfig.toml` checks everything.

Code that changes state is modelled as methods and classes, each proved against a specification on values; what the
program promises is then proved about that specification, over every input and every run.

| file | what it models |
|---|---|
| Basics.dfy, Sorting.dfy | the parts of Go's `strings`, `strconv` and `sort` that the rest needs; why sorting hides the order of a map iteration |
| LockForest.dfy | the lock-wait forest: unfolding a graph that may have cycles into trees |
| JobSpec.dfy, JobStore.dfy | the bounded job table, as a value over all runs and as objects in the heap |
| WalProtocol.dfy | any number of backup, restore and verification workers over one mutex, one PostgreSQL, one data directory and one job table |
| RecoveryConf.dfy | the recovery settings a restore appends, and how PostgreSQL reads that file |
| WalSafety.dfy, WalJobs.dfy, WalTrace.dfy | what every run of those workers keeps, what the job table says, and in which order commands happen |
| WalProgress.dfy, WalOutcome.dfy, WalReports.dfy | that every worker comes to its end and lets the mutex go; that its job says which commands ran and what they came to |
| WalRestore.dfy | what a restore achieves when its commands succeed, and what is left when one fails |
| BackupScan.dfy | the two scans for the newest backup, and the size display |
| PoolCache.dfy | the cache of connection pools as interleaved lock sections |
| AlertSpec.dfy, Alerter.dfy | alert states, cooldown, event log |
| PgBouncerConfig.dfy | rewriting the PgBouncer configuration file in place |
| SchemaDiff.dfy | the drift report as a patch; fingerprints |
| QuoteIdent.dfy | identifier quoting against a reader of delimited identifiers |
| WalPosition.dfy | reading log positions; the write rate |
| Scheduler.dfy | the weekly schedule and the restart of its loop |
| Sessions.dfy | sliding sessions with clean-up at login |
| Tuner.dfy | memory budget, connection arithmetic, lossy formatting of sizes |
| ConfigStore.dfy | normalising the configuration, and the masked token |

Instants and durations are integers; every clock reading is a parameter. A Go map iteration is a loop that picks any
remaining key. External commands are steps with an arbitrary outcome. The only assumptions about the surroundings are
stated as preconditions or in the definitions of the events.

Beside the results listed below, lemmas named `…Exactly`, `…Says`, `…Writes` and `…Texts` tie constants, texts and single
fields of the specifications to the values in the source, so that the results do not rest on definitions alone.

Where the code does not do what its comments or its callers expect, the code is modelled as it is, a concrete input is
given, and the exact condition is proved:

- A deadlocked group that no free blocker reaches is missing from the lock forest (`SeparateCycleIsHidden`, `CoverageExactly`).
- A newest backup without a name is passed over (`NamelessBackupIsPassedOver`, `ChosenIsNewestExactly`).
- Two connection profiles can share a cache key when one's name is the other's followed by a bar (`KeysClashExactly`).
- A breach that returns inside the cooldown is open but still shows a time of resolution (`OpenYetResolved`, `ResolutionTimeExactly`).
- A change of a table's owner can hide behind a change of its comment (`OwnerChangeHidesExactly`).
- The comment at `calculatePGMaxConn` promises at most half of the expected connections; below 100 expected ones this fails (`HalfOfExpectedExactly`).
- The lower bound of 4 MiB for `work_mem` can break the memory budget (`WorkFitsExactly`, `MemoryBudget`).
- `wal_buffers` is rounded down, not "to the nearest MB", and its lower bound of 64 kB is never seen (`WalBuffersFor`).
- A recommended size that has been applied can be displayed as a different size (`SharedBuffersShownDifferently`, `ShownAsItselfExactly`).
- A restore appends to the configuration that the backup brought and removes nothing: an old target time stays in force when the request has none (`OldTargetSurvives`, `RequestedTimeExactly`).
- Names with dots can make two database objects one in the drift report (`DottedNamesHideATable`, `NamesClashExactly`).
- Overlapping requests for the write rate show bytes twice (`OverlapCountsTwice`, `OverlapsDecide`).
- A named connection profile cannot be disabled (`DisabledExactly`); the built-in defaults are not always in normal form (`DefaultsAreNormalExactly`).
- Bytes written between two samples at one instant are lost from the rate (`SameInstantLosesBytes`, `TotalExactly`).
- A token posted between the two lock sections of another post is lost when that one carries the mask (`InterleavedExactly`).
- A second `Close` of the pool manager fails (`PoolManager.Close`).

## Model

| member | source | states |
|---|---|---|
| LockForest.IndexLocks | backend/handler/locks.go:141-170 | the loop over the rows fills the four maps as the row-by-row specification says |
| LockForest.IndexSets | backend/handler/locks.go:147-148 | a process is blocked (a blocker) exactly when some row names it as such |
| LockForest.IndexSuccessors | backend/handler/locks.go:166-169 | the children recorded for a process are exactly those that some row shows waiting for it |
| LockForest.IndexData | backend/handler/locks.go:150-165 | what is kept about a process is, field by field, what the last row that names it says of its side: user, database and query, and for a waiting process also state, wait and duration |
| LockForest.IndexEdge | backend/handler/locks.go:166-169 | the lock on an edge comes from the last row about that pair of processes |
| LockForest.IndexIsWellFormed | backend/handler/locks.go:141-170 | every node has its own number, children are blocked, and every blocked process is somebody's child |
| LockForest.BuildNode | backend/handler/locks.go:184-222 | the recursion with a copied ancestor set ends on every graph, cyclic or not, and builds the specified tree |
| LockForest.BuildLockTree | backend/handler/locks.go:129-233 | for every list of rows the whole construction returns the specified forest and the unchanged rows |
| LockForest.PathsExact | backend/handler/locks.go:184-222 | the ways down a tree are exactly the walks of the blocking graph that repeat no process before their end |
| LockForest.ShownExactly | backend/handler/locks.go:171-226 | a process occurs in the forest exactly when the blocking graph reaches it from a chosen root |
| LockForest.PathsAreShort | backend/handler/locks.go:184-222 | no way down is longer than the number of blockers plus one |
| LockForest.RepeatEndsPath | backend/handler/locks.go:197-199 | a path repeats a process only in its last node, and that node has no children |
| LockForest.BuildAligns | backend/handler/locks.go:207-220 | at every level children and edges correspond, one per distinct waiter, in ascending order |
| LockForest.ForestAligned | backend/handler/locks.go:207-226 | the same for every tree of the forest |
| LockForest.ForestAscends | backend/handler/locks.go:171-182 | one tree per chosen root, in ascending order |
| LockForest.NodeShows | backend/handler/locks.go:186-197 | every node of every tree shows, field by field, its own side of the last row that names its process |
| LockForest.EdgeShows | backend/handler/locks.go:212-219 | every edge shows lock type, relation and duration of the last row about its pair |
| LockForest.AllBlockedShowsAll | backend/handler/locks.go:177-181 | when every blocker waits itself, the fallback to all blockers shows every process named in any row |
| LockForest.AcyclicShowsAll | backend/handler/locks.go:171-182 | without cycles of waiting, every process named in any row is shown |
| LockForest.CoverageExactly | backend/handler/locks.go:171-226 | the forest shows everybody if and only if no blocker is free, or everybody is reached from a free one |
| LockForest.SeparateCycleIsHidden | backend/handler/locks.go:171-182 | a deadlocked pair beside an ordinary wait is left out: three rows that show it |
| Sorting.EnumerationIsUnique | backend/handler/locks.go:207-211 | only one ascending list has a given set of elements, so the order of the map iteration cannot be told from the sorted result |
| Sorting.SortInts | backend/handler/locks.go:207-211 | collecting keys in any order and sorting them gives the ascending list of the set |
| Sorting.SortedIntsMeaning | backend/handler/locks.go:183-183 | that list ascends strictly, has only members of the set and as many as the set |
| Sorting.SortSlice | backend/service/job_store.go:179-181 | the loop of an insertion sort yields the specified stable sort |
| Sorting.StableSortSorts | backend/service/job_store.go:179-181 | the stable sort is an ordered rearrangement, for every strict weak order |
| Sorting.StableSortIsStable | backend/service/job_store.go:179-181 | elements that tie keep their order |
| Sorting.StableSortEnumerates | backend/handler/schema.go:181-181 | by a total order and without duplicates, sorting lists the set, whatever the order of the input |
| Sorting.SortMapped | backend/handler/schema.go:181-181 | sorting records by name and sorting the names is the same |
| Sorting.StringBeforeExactly | backend/handler/schema.go:181-181 | names are ordered lexicographically |
| JobSpec.TicketOfJobId | backend/service/job_store.go:69-69 | the sequence number can be read back from every generated identifier, so identifiers never collide |
| JobSpec.JobIdExactly | backend/service/job_store.go:69-69 | an identifier is "job", the second of the start and the number in at least six digits, between dashes, and both numbers read back |
| JobSpec.InsertShape | backend/service/job_store.go:81-86 | a new job goes in front; when the table is full exactly the oldest job leaves, through the clean-up |
| JobSpec.CommitIsNew | backend/service/job_store.go:66-87 | in every reachable state the identifier about to be entered was never used before |
| JobSpec.CommitEnters | backend/service/job_store.go:68-86 | a started job is in the table, running, with the fields of its request and no error, details, artifact or end, also when the table was full |
| JobSpec.NextKeepsInv | backend/service/job_store.go:66-144 | every operation keeps: order and table list the same jobs without repetition, newest first, evicted ones cleaned up once in order |
| JobSpec.RunsKeepInv | backend/service/job_store.go:66-144 | in every run the table holds exactly the latest min(n, 200) insertions, and each earlier job was cleaned up exactly once |
| JobSpec.EvictedForEver | backend/service/job_store.go:66-144 | a job that was evicted never comes back, in any continuation of any run |
| JobSpec.OthersUntouched | backend/service/job_store.go:66-144 | an operation about one job leaves every other job exactly as it was, or evicts it, and only a start evicts |
| JobSpec.MatchingMeaning | backend/service/job_store.go:164-172 | the jobs considered for a list are exactly the stored ones of the requested type |
| JobSpec.MatchingInOrder | backend/service/job_store.go:164-177 | each of them is considered once, in the order of the table |
| JobSpec.ListMeaning | backend/service/job_store.go:156-183 | a list is the first matching jobs, as many as a limit from 1 to 200 allows and at most 50 under any other limit, newest first, with ties in table order |
| JobStore.CloneMetadata | backend/service/job_store.go:213-222 | the copy reads the same and shares no storage |
| JobStore.CloneJob | backend/service/job_store.go:196-211 | the copy says the same as the original and everything mutable it reaches is new |
| JobStore.JobStore.Draw | backend/service/job_store.go:69-69 | drawing a number leaves the table alone and never gives a number twice |
| JobStore.JobStore.Commit | backend/service/job_store.go:66-87 | the new table is that of the specification, and the stored job, the job handed back and the caller's metadata share no storage |
| JobStore.JobStore.TrimLocked | backend/service/job_store.go:185-194 | the loop drops the oldest jobs as specified, calls the clean-up for each, and keeps the others' objects |
| JobStore.JobStore.Update | backend/service/job_store.go:89-104 | changes the message and details that are not empty of this job only; an unknown job changes nothing |
| JobStore.JobStore.Finish | backend/service/job_store.go:122-144 | makes this job terminal as specified, without looking at its status; an unknown job changes nothing |
| JobStore.JobStore.Get | backend/service/job_store.go:146-154 | returns nothing exactly for unknown jobs, otherwise a fresh deep copy of the stored one |
| JobStore.JobStore.Collect | backend/service/job_store.go:164-177 | the loop copies exactly the first `max` matching jobs |
| JobStore.JobStore.List | backend/service/job_store.go:156-183 | the returned records mirror the specified list and are all fresh copies |
| JobStore.SortMirrors | backend/service/job_store.go:179-182 | sorting the copies and sorting the values they stand for is the same |
| RecoveryConf.AssignmentReadsBack | backend/service/walg.go:493-496 | a line written for a name and a value without quotes, backslashes and line breaks is read by PostgreSQL as exactly that setting |
| RecoveryConf.AppendedText | backend/service/walg.go:493-505 | the appended text begins a new line whatever the file ends with: its lines stand behind those of the file, which stay as they were |
| RecoveryConf.SettingsAfterAppend | backend/service/walg.go:493-505 | the settings in force after appending to any file: the request's, and for every other name the one the file had |
| RecoveryConf.RequestedTimeExactly | backend/service/walg.go:494-505 | the target time in force is the requested one if and only if one was requested or the file had none |
| RecoveryConf.OldTargetStays | backend/service/walg.go:499-505 | appending for a request without a target behind the lines of one with a target leaves the old target in force |
| WalSafety.RestoreStep | backend/service/walg.go:443-523 | each operation of a restore takes what it may rely on to what the next one may: PostgreSQL down, the directory emptied, then as fetched, then with the signal, then with its configuration extended by the request's lines |
| WalSafety.NextKeepsSafe | backend/service/walg.go:219-265 | every event keeps job numbers apart, the mutex exclusive and the cluster as a restore in progress needs it |
| WalSafety.RunIsSafe | backend/service/walg.go:428-526 | the same in every run from any starting state, whatever commands fail and whenever PostgreSQL crashes |
| WalSafety.NeverTwoInSection | backend/service/walg.go:224-225 | in every run at most one backup or restore is between taking and releasing the mutex, and it is the holder |
| WalSafety.NothingOverlapsPush | backend/service/walg.go:252-252 | during a backup push no worker stops or starts PostgreSQL or writes to its directory, and no second push runs |
| WalSafety.WritesOnlyWhenStopped | backend/service/walg.go:446-512 | the data directory is written only by the holder of the mutex, after its own successful stop, with PostgreSQL down |
| WalSafety.StartsOnlyWhenReady | backend/service/walg.go:514-523 | PostgreSQL is started only by the holder, on a directory with the requested backup and the signal, its `postgresql.auto.conf` being the text the backup brought followed by this request's lines |
| WalSafety.StartsWithSettings | backend/service/walg.go:491-517 | at that start the fetch command in force is this request's, target time and action are if a target was given, every other setting is what the backup brought; the target time is the requested one if and only if one was given or the backup brought none |
| WalJobs.NextKeepsJobs | backend/service/walg.go:316-394 | every event keeps: each worker's stored job is running before its last call and terminal after it, with an artifact only after success |
| WalReports.NextKeepsReports | backend/service/walg.go:219-265 | every event keeps: where a worker stands tells which commands it ran with which outcomes, and its job says so |
| WalReports.VerificationExactly | backend/service/walg.go:316-394 | in every run a verification has succeeded if and only if its ten commands all ended well in order, failed if and only if one failed, and has a report exactly when it succeeded |
| WalReports.RestoreExactly | backend/service/walg.go:428-526 | in every run a restore has succeeded if and only if its eight commands all ended well in order, and failed if and only if one failed |
| WalReports.BackupExactly | backend/service/walg.go:221-265 | in every run a backup has succeeded if and only if it pushed, after listing when incremental, and then went on to prune; it is canceled if and only if the list was empty |
| WalReports.RestorePhaseShows | backend/service/walg.go:443-523 | in every run, while a restore is at work on the cluster, the stored message names the phase of the command that runs |
| WalReports.FailedNamesCommand | backend/service/walg.go:437-523 | in every run a failed job names the failed command in its message and its error, with the fixed details where the source has some |
| WalReports.FailureShowsOutput | backend/service/walg.go:450-523 | where the source has no fixed text, the details of a failed job are what the command printed |
| WalJobs.RunReports | backend/service/walg.go:428-526 | in every run each backup, restore and verification past its last call has finished its job exactly once, and none before |
| WalJobs.FinishedStays | backend/service/job_store.go:122-144 | nothing that can happen changes a finished job; it can only be evicted |
| WalJobs.TerminalForEver | backend/service/walg.go:221-265 | in every continuation of every run a terminal job stays exactly as it is or is evicted |
| WalJobs.EvictedStaysGone | backend/service/job_store.go:126-129 | a job evicted while its worker still runs stays out of the table in every continuation of every run, whatever the worker reports |
| WalProgress.StepsCountDown | backend/service/walg.go:221-265 | every step of a worker brings it strictly closer to its end, whatever the outcome of its command |
| WalProgress.StepsAreBounded | backend/service/walg.go:221-265 | in every interleaving a worker takes at most as many steps as its program, its report and its unlock have left |
| WalProgress.NeverStuck | backend/service/walg.go:224-225 | while some worker has work left, some worker can take a step |
| WalProgress.HeldUntilUnlock | backend/service/walg.go:430-431 | in every interleaving the worker that has the mutex keeps it until its own unlock, and is done after it |
| WalProgress.MutexIsFreed | backend/service/walg.go:430-431 | for every way in which the holder's commands can come out, wherever it stands, its next steps exist, follow those outcomes, and after at most as many as it has left the mutex is free |
| WalOutcome.NextKeepsOutcomes | backend/service/walg.go:219-265 | every event keeps what the position of each worker says about the outcomes of its commands so far |
| WalOutcome.OutcomeExactly | backend/service/walg.go:428-526 | in every run a finished backup or restore has failed if and only if one of its commands failed, prune apart, succeeded if and only if its push or its start of PostgreSQL did, and is canceled otherwise |
| WalOutcome.StartReachesGoal | backend/service/walg.go:514-524 | in every interleaving, when the start after a restore succeeds PostgreSQL is up on the requested backup with the request's recovery settings |
| WalOutcome.NoMoreCommands | backend/service/walg.go:446-523 | after a failed command no later command of that backup or restore ends, in any continuation of any run |
| WalTrace.NextKeepsTrace | backend/service/walg.go:219-265 | every event keeps: the commands of each worker form one contiguous block and are a first part of its program |
| WalTrace.RunKeepsTrace | backend/service/walg.go:428-526 | the same in every run |
| WalTrace.RestoreIsUndisturbed | backend/service/walg.go:428-526 | before any command of a restore stand all its earlier commands, successful, in order, with nothing of another backup or restore between |
| WalTrace.ClusterCommandsAreRestores | backend/service/walg.go:446-523 | only restores stop or start PostgreSQL or write to its directory |
| WalTrace.StartFollowsAll | backend/service/walg.go:433-523 | a start stands right behind guard, stop, clean, fetch, signal and recovery lines of the same restore, all successful |
| WalRestore.RestoreSucceeds | backend/service/walg.go:428-526 | from every safe world in which a restore has taken the mutex, steps with successful commands exist that lead to PostgreSQL up on the requested backup with its configuration and the request's lines, the mutex free and the job succeeded |
| WalRestore.FailureEndsRestore | backend/service/walg.go:446-523 | after any failed command of a restore two steps end it: they report the failure and unlock, and leave PostgreSQL and the directory as the command left them |
| WalRestore.RestoreCanStart | backend/service/walg.go:424-431 | from every safe world with a free mutex a requested restore can get there |
| WalRestore.OldTargetSurvives | backend/service/walg.go:491-523 | a run of two restores, the second without a target of a backup taken after the first: it ends with PostgreSQL up and the target time of the first in force |
| BackupScan.LatestByTime | backend/service/walg.go:140-156 | the loop returns the name of the backup that the specification chooses |
| BackupScan.LatestBackupTime | backend/service/walg.go:158-174 | the result is the greatest finishing (or starting) time, but never before the zero time |
| BackupScan.FirstNewestWins | backend/service/walg.go:150-153 | of named backups that are equally new the first in the list is chosen |
| BackupScan.NamedNewestWins | backend/service/walg.go:145-155 | when a newest backup has a name, the chosen one is newest and named, independent of the order of the list |
| BackupScan.ChosenIsNewestExactly | backend/service/walg.go:138-156 | the chosen backup is newest if and only if some newest one has a name or the last of the list is newest |
| BackupScan.ScansAgreeExactly | backend/service/walg.go:138-174 | the two scans agree on the time if and only if, besides, some backup is not before the zero time |
| BackupScan.NamelessBackupIsPassedOver | backend/service/walg.go:150-150 | a list on which a nameless newest backup loses to an older one |
| BackupScan.HumanBytes | backend/service/walg.go:539-550 | for every 64-bit size the printed quotient lies between 1 and 1024 and the suffix index stays inside the six letters |
| PoolCache.PoolKeyIsNotEmpty | backend/service/pool_manager.go:263-271 | no key is empty, which the search for the victim relies on |
| PoolCache.KeysClashExactly | backend/service/pool_manager.go:263-271 | two profiles share a key for some databases if and only if one's name is the other's followed by a bar |
| PoolCache.PlainProfilesAreApart | backend/service/pool_manager.go:263-271 | without bars in profile names, a key determines the profile and the database |
| PoolCache.DatabasesNeverShare | backend/service/pool_manager.go:263-271 | for profiles without a bar a cached pool serves one database of one profile only |
| PoolCache.CreateKeeps | backend/service/pool_manager.go:80-122 | the write-locked half of a request keeps the bound and the accounts, however opening the pool goes |
| PoolCache.CreateOverwritesNothing | backend/service/pool_manager.go:84-120 | a live entry is never overwritten: an existing key is reused without opening a pool, and all others but the victim stay as they were |
| PoolCache.CreateExactly | backend/service/pool_manager.go:84-122 | an entry goes only when sixteen pools are held, and then a least recently used one, which is closed; every other entry stays as it was, and the new one counts as used now |
| PoolCache.AfterKeepsInv | backend/service/pool_manager.go:57-211 | each lock section keeps: at most 16 pools, opened minus closed equals held, none held is closed, none closed twice |
| PoolCache.InterleavingsKeepInv | backend/service/pool_manager.go:57-211 | the same after every interleaving of get, touch, sweep, evict and close; the default pool is never closed |
| PoolCache.ClosedForEver | backend/service/pool_manager.go:57-211 | a closed pool is never in the cache again, in any interleaving that follows |
| PoolCache.DropListRemoves | backend/service/pool_manager.go:173-180 | a sweep or close removes exactly the listed pools |
| PoolCache.PoolManager.TouchPool | backend/service/pool_manager.go:205-211 | refreshes this entry only, and nothing when it was evicted meanwhile |
| PoolCache.PoolManager.EvictOldestLocked | backend/service/pool_manager.go:188-203 | the pool closed and removed has the least `lastUsed`, in whatever order the map is walked |
| PoolCache.PoolManager.CreatePool | backend/service/pool_manager.go:80-123 | evicts at most one least recently used pool, and returns the pool that is then in the cache, or none |
| PoolCache.PoolManager.Open | backend/service/pool_manager.go:94-122 | a pool that does not answer is closed again and not kept; a working one is entered |
| PoolCache.PoolManager.GetPoolForProfile | backend/service/pool_manager.go:57-123 | a request gets the default pool exactly when it asks for the default connection and database, otherwise the open pool made for its own profile and database, and an error exactly when none was cached and none could be opened |
| PoolCache.PoolManager.PoolFor | backend/service/pool_manager.go:70-122 | the cached pool of a key, or a new one, in either case made for this key, open and used now |
| PoolCache.PoolManager.SweepIdle | backend/service/pool_manager.go:171-181 | exactly the pools used within the last ten minutes are left, and the others are closed |
| PoolCache.PoolManager.CloseEach | backend/service/pool_manager.go:135-138 | closes each held pool exactly once |
| PoolCache.PoolManager.Close | backend/service/pool_manager.go:131-140 | afterwards every pool ever opened is closed exactly once and none is held; a second call fails and changes nothing |
| AlertSpec.OpenKeysAreBreached | backend/service/alerter.go:71-144 | after a check the open keys are exactly the keys breached in it |
| AlertSpec.OneEventPerResolution | backend/service/alerter.go:202-230 | every open state that was not seen gets exactly one resolved event, and no other state does |
| AlertSpec.OrderDoesNotMatter | backend/service/alerter.go:206-229 | the states after resolving do not depend on the order of the map |
| AlertSpec.OnlyBlockOrderVaries | backend/service/alerter.go:206-229 | the log depends on it only in the order of the appended events |
| AlertSpec.CountIsFires | backend/service/alerter.go:169-169 | over every run the count of a key is the number of its fires, suppressed or not |
| AlertSpec.OpenEventsAreSpaced | backend/service/alerter.go:171-185 | with a fixed positive cooldown any two open events of a key are at least the cooldown apart, also across resolutions |
| AlertSpec.ResolutionTimeExactly | backend/service/alerter.go:171-176 | a state shows a time of resolution exactly when the last event about its key is a resolved one |
| AlertSpec.OpenYetResolved | backend/service/alerter.go:171-176 | a run after which an alert is open and shows a time of resolution |
| AlertSpec.BreachedKeysExactly | backend/service/alerter.go:83-141 | a key is breached if and only if its measurement exceeds its threshold, each comparison written out: disk, connections under any rounding, lag of a replica, age of the newest backup or its absence |
| AlertSpec.AlarmSays | backend/service/alerter.go:84-139 | each alarm has the level, metric and texts of its kind: disk critical, connections and lag warnings, backups critical unless they could not be looked at |
| AlertSpec.EventExactlyWhenDue | backend/service/alerter.go:171-185 | in every run a fire appends an event exactly when the last open event of its key is at least the cooldown old or there is none |
| AlertSpec.SevenOfHundred | backend/service/alerter.go:94-95 | in double precision 7 of 100 connections exceed a threshold of 7, exactly computed they do not |
| Alerter.Alerter.Record | backend/service/alerter.go:187-191 | the history is always the last 100 entries of the full log |
| Alerter.Alerter.Fire | backend/service/alerter.go:146-192 | states and log change as specified, for a new, an open, a resolved and a suppressed key |
| Alerter.Alerter.ResolveMissing | backend/service/alerter.go:202-230 | resolves in the order in which the map yields its keys, each key once |
| Alerter.Alerter.Check | backend/service/alerter.go:71-144 | without measurements nothing changes; otherwise the open keys afterwards are exactly the breached ones |
| Alerter.Alerter.FireAndResolve | backend/service/alerter.go:76-143 | firing any list of breaches in order and then resolving leaves exactly their keys open |
| PgBouncerConfig.RewriteInPlace | backend/service/pgbouncer.go:267-283 | the loop overwrites exactly the lines with a supplied key and leaves all others as they were |
| PgBouncerConfig.UpdateConfig | backend/service/pgbouncer.go:255-288 | the written text is the rewritten lines, joined |
| PgBouncerConfig.ParseExactly | backend/service/pgbouncer.go:268-278 | a line is a setting exactly when, trimmed, it is not empty, begins with none of the three marks and has an equals sign; key and value stand around the first one |
| PgBouncerConfig.LineReadsBack | backend/service/pgbouncer.go:268-283 | a rewritten line reads back as the same key with the supplied value, trimmed; any other line is byte-identical |
| PgBouncerConfig.SettingsAfterRewrite | backend/service/pgbouncer.go:267-283 | the file then has its old settings in their order with exactly the supplied values replaced |
| PgBouncerConfig.RewritesCompose | backend/service/pgbouncer.go:267-283 | two rewrites are one in which the second settings win |
| PgBouncerConfig.RewriteIsIdempotent | backend/service/pgbouncer.go:267-283 | rewriting twice is rewriting once |
| PgBouncerConfig.FileIsRewrittenLinesExactly | backend/service/pgbouncer.go:264-286 | splitting the written text gives the rewritten lines if and only if no value that was written has a line break |
| PgBouncerConfig.FileReadsBack | backend/service/pgbouncer.go:255-288 | at the level of the file text: replaced settings read back, and a second update changes nothing |
| Strings.TrimSpaceSplits | backend/service/pgbouncer.go:269-269 | trimming removes white space at both ends and nothing else |
| Strings.TrimSpaceUnique | backend/service/pgbouncer.go:269-269 | every trimmed text with white space around it is what trimming gives back |
| Strings.SplitOfJoin | backend/service/pgbouncer.go:286-286 | splitting undoes joining when no part has the separator |
| Strings.JoinOfSplit | backend/service/pgbouncer.go:264-264 | joining undoes splitting, for every text |
| Strings.SplitPartsFree | backend/service/pgbouncer.go:264-264 | no part of a split text has the separator |
| Strings.PairsClashExactly | backend/handler/schema.go:108-108 | different first parts give the same joined text for some second parts if and only if one is the other followed by the separator |
| Strings.PairsEqualExactly | backend/handler/schema.go:108-108 | two pairs give the same joined text if and only if they are equal or one is the other cut at a different separator |
| Strings.NumeralRoundTrip | backend/service/monitor.go:517-524 | a numeral in any base up to 16 reads back as its number, whatever zeros stand in front |
| Strings.DigitsExactly | backend/service/monitor.go:517-521 | hexadecimal digits are those of either case and nothing else |
| Strings.PaddedRoundTrip | backend/service/job_store.go:69-69 | a zero-padded numeral reads back as its number, also when it is wider than the padding |
| SchemaDiff.DiffOnly | backend/handler/schema.go:170-183 | one entry per name that only the left side has, with its detail, ascending, in whatever order the map is walked |
| SchemaDiff.DiffChanged | backend/handler/schema.go:185-200 | one entry per name with different details, ascending, in whatever order the map is walked |
| SchemaDiff.ReportSays | backend/handler/schema.go:170-200 | each entry has the details of its side, and names ascend lexicographically |
| SchemaDiff.ReportIsAPatch | backend/handler/schema.go:170-200 | dropping, overwriting and adding what the report says turns the source into the target |
| SchemaDiff.ReportLeadsBack | backend/handler/schema.go:170-200 | the reversed report restores the source from the target |
| SchemaDiff.EmptyReportExactly | backend/handler/schema.go:170-200 | all three lists are empty if and only if source and target are equal |
| SchemaDiff.ColumnFingerprintInjective | backend/handler/schema.go:129-129 | equal column details mean equal columns when only the default can contain a bar |
| SchemaDiff.OwnerChangeHidesExactly | backend/handler/schema.go:108-108 | a change of owner can be hidden by some comments if and only if one owner's name is the other's followed by a bar |
| SchemaDiff.NamesClashExactly | backend/handler/schema.go:129-146 | two tables, columns or indexes get the same name if and only if they are the same or a dot inside a name moves the boundary between qualifier and name |
| SchemaDiff.EmptyReportMeansSameTables | backend/handler/schema.go:105-110 | of catalogues whose names do not clash and whose owners have no bar, the report is empty if and only if they have the same tables with the same owners and comments |
| SchemaDiff.DottedNamesHideATable | backend/handler/schema.go:108-108 | two tables with one name, of which a target lacks one, and the report is empty |
| QuoteIdent.QuotedReadsBackExactly | backend/handler/maintenance.go:149-151 | a reader of delimited identifiers recovers the identifier and the text behind it if and only if that text does not begin with a quote |
| QuoteIdent.QualifiedReadsBack | backend/handler/maintenance.go:73-73 | schema, name and the following text are recovered from a qualified name |
| QuoteIdent.QualifiedNamesDiffer | backend/handler/maintenance.go:104-104 | different schema or name means a different qualified name |
| WalPosition.ParseOfPrint | backend/service/monitor.go:512-526 | reading inverts writing for every 64-bit position, padded or not, with any white space around it |
| WalPosition.PositionsFit | backend/service/monitor.go:525-525 | what is read always fits in 64 bits and reads the same when written again |
| WalPosition.TooLargeIsRefused | backend/service/monitor.go:517-524 | a half that needs more than 32 bits is refused |
| WalPosition.PositionOrderExactly | backend/service/monitor.go:525-525 | positions compare as their halves do, lexicographically |
| WalPosition.Monitor.GetWalStats | backend/service/monitor.go:333-357 | a malformed answer leaves the previous sample; otherwise the rate is that from the previous sample to this one, which is then kept |
| WalPosition.BytesShownExactly | backend/service/monitor.go:347-353 | the rate over its interval stands for the whole difference, or for nothing after a drop or without time between |
| WalPosition.RateIsPerSecond | backend/service/monitor.go:348-350 | the rate times the interval in nanoseconds is the difference times 10^9 |
| WalPosition.TotalExactly | backend/service/monitor.go:344-355 | over every run of growing positions the bytes shown sum to last minus first if and only if none fell between samples without time between |
| WalPosition.DropsCountAsZero | backend/service/monitor.go:347-347 | with drops and an advancing clock the sum never falls short of last minus first |
| WalPosition.SameInstantLosesBytes | backend/service/monitor.go:348-355 | three samples whose sum misses 100 of 150 bytes |
| WalPosition.TotalCountsDropsTwice | backend/service/monitor.go:347-355 | with an advancing clock the bytes shown over any run are last minus first and the drops once more |
| WalPosition.NoOverlapKeepsOrder | backend/service/monitor.go:335-355 | calls that do not overlap keep their positions in the order in which they read them |
| WalPosition.OverlapsDecide | backend/service/monitor.go:335-355 | in every interleaving of calls, which read before they lock, the sum is right if and only if the samples were kept in the order of their positions |
| WalPosition.OverlapCountsTwice | backend/service/monitor.go:335-355 | two overlapping calls after which 100 bytes are shown twice |
| Scheduler.SlotsAreWeeksApart | backend/service/scheduler.go:152-157 | two instants on the same weekday and hour in GMT+7 are whole weeks apart |
| Scheduler.SlotExactly | backend/service/scheduler.go:145-154 | a slot is a fixed number of nanoseconds after the beginning of a Sunday in GMT+7 |
| Scheduler.NextIsASlot | backend/service/scheduler.go:144-159 | the result is on the normalised weekday and hour, strictly after now and within a week |
| Scheduler.NextIsTheFirst | backend/service/scheduler.go:144-159 | it is the least such instant |
| Scheduler.NextExactly | backend/service/scheduler.go:144-159 | the next run is the least instant after now at the configured weekday and hour in plain numbers, with Sunday and four o'clock for values out of range |
| Scheduler.NextAfterSlot | backend/service/scheduler.go:66-69 | after handling of any length the next target is the first slot that has not passed |
| Scheduler.TargetsAreWeekly | backend/service/scheduler.go:56-74 | as long as each handling ends within a week of its slot, the targets are exactly seven days apart |
| Scheduler.StatusShowsTimerExactly | backend/service/scheduler.go:69-82 | the displayed next run and the timer agree if and only if no slot falls between their two clock readings |
| Scheduler.Scheduler.Start | backend/service/scheduler.go:29-54 | however often it is called, at most one loop is not cancelled, and exactly one when backups are enabled with an interval |
| Scheduler.Scheduler.FullTick | backend/service/scheduler.go:66-89 | records the run and sets the timer to the next slot of the configuration in force |
| Sessions.PasswordAuth.Login | backend/service/auth.go:82-91 | a wrong password changes nothing; the right one enters a session and removes the expired ones |
| Sessions.PasswordAuth.CreateSessionLocked | backend/service/auth.go:123-137 | after the walk, in any order of the map, exactly the sessions not yet expired are left |
| Sessions.PasswordAuth.ValidateSession | backend/service/auth.go:94-110 | accepts exactly the known sessions up to their expiry, prolongs those and forgets a rejected one |
| Sessions.PasswordAuth.CheckSession | backend/service/auth.go:113-121 | shows exactly the known sessions before their expiry and changes nothing |
| Sessions.CheckAndValidateExactly | backend/service/auth.go:94-121 | a session that is shown is also accepted; the two differ only at the instant of expiry |
| Sessions.RunKeeps | backend/service/auth.go:82-137 | in every run the store knows each session's last grant plus its lifetime, unless that has passed |
| Sessions.AnswersAreThoseOfTheReference | backend/service/auth.go:82-137 | with a clock that does not go back every answer is that of a store that removes nothing: purging cannot be observed |
| Sessions.PurgeShowsWhenClockGoesBack | backend/service/auth.go:130-135 | a run in which the clock goes back and purging is observed |
| Sessions.RejectedStaysRejected | backend/service/auth.go:94-110 | a rejected session stays rejected until its next login, through any run of other logins and requests |
| Tuner.CalculatePgMaxConn | backend/service/tuner.go:448-467 | the reassigned locals end in the specified number, for every number of connections and cores |
| Tuner.MaxConnExactly | backend/service/tuner.go:448-467 | the result is the greatest number from 50 to 500 that, above 50, neither four per core nor half of the expected connections forbid |
| Tuner.HalfOfExpectedExactly | backend/service/tuner.go:449-466 | it is at most half of the expected connections if and only if at least 100 are expected |
| Tuner.CalculateConnections | backend/service/tuner.go:400-445 | two full pools fit beside the reserved connections and a third does not; the lower bounds never apply; the ratio is zero exactly below one connection each |
| Tuner.Calculate | backend/service/tuner.go:205-289 | the five memory recommendations, in order, for every profile, memory size and number of connections and cores |
| Tuner.WorkMemFor | backend/service/tuner.go:241-254 | the share of each operation by profile, raised to 4 MiB where it is smaller |
| Tuner.MaintenanceFor | backend/service/tuner.go:258-270 | a sixteenth of the memory, at most 2 GiB, on a desktop at most 512 MiB |
| Tuner.WalBuffersFor | backend/service/tuner.go:277-287 | whole mebibytes from 1 to 64, rounded down; the bound of 64 kB is never seen |
| Tuner.SharedExactly | backend/service/tuner.go:220-224 | shared_buffers is the greatest size that fits into the memory four times, on a desktop sixteen times |
| Tuner.WorkExactly | backend/service/tuner.go:243-254 | above 4 MiB work_mem is the greatest size of which the counted operations of all connections fit into what the profile sets aside |
| Tuner.MaintenanceExactly | backend/service/tuner.go:259-270 | maintenance_work_mem is the greatest size that fits sixteen times, up to the cap of the profile |
| Tuner.CacheExactly | backend/service/tuner.go:229-232 | effective_cache_size is the greatest size of which four fit into three times the memory, on a desktop into the memory |
| Tuner.WalExactly | backend/service/tuner.go:278-287 | each further mebibyte up to 64 is taken while it stays within three percent of the shared buffers |
| Tuner.WorkFitsExactly | backend/service/tuner.go:241-254 | all operations together keep to what is set aside for them if and only if the lower bound did not raise their share |
| Tuner.FloorBindsExactly | backend/service/tuner.go:252-254 | which is the case exactly when 4 MiB for each operation fit into what is set aside |
| Tuner.MemoryBudget | backend/service/tuner.go:219-254 | with that guard shared buffers and all operations stay within the memory (web, mixed), within shared plus twice the rest (OLAP), within an eighth (desktop) |
| Tuner.FormattedBudget | backend/service/tuner.go:219-257 | the same bounds hold of the formatted recommendations |
| Tuner.EffectiveExactly | backend/service/tuner.go:229-232 | the cache estimate is three quarters of the memory if and only if tripling it does not wrap around in 64 bits |
| Tuner.FormatRoundsDown | backend/service/tuner.go:497-509 | formatting never rounds up and loses less than 1024 bytes or less than one percent |
| Tuner.FormatTwiceExactly | backend/service/tuner.go:497-509 | formatting a formatted size gives the same text if and only if the size lies outside two narrow windows |
| Tuner.ShownAsItselfExactly | backend/service/tuner.go:526-553 | a recommendation that was applied is displayed as itself, whichever way the server rounds, if and only if its size lies outside the windows and its amount is a whole number of the blocks of its setting, 8 kB or 1 kB |
| Tuner.SharedBuffersShownDifferently | backend/service/tuner.go:533-538 | a machine whose recommended shared_buffers lies outside the windows and is displayed differently |
| Tuner.WalBuffersShownAsItself | backend/service/tuner.go:283-289 | the recommended wal_buffers are always displayed as themselves |
| Tuner.TextReadsBack | backend/service/tuner.go:502-508 | the printed text reads back as the same amount and unit |
| ConfigStore.Store.constructor | backend/service/config_store.go:99-101 | a new store holds the defaults of its environment in an array of its own |
| ConfigStore.Store.Update | backend/service/config_store.go:119-125 | the stored configuration is the normal form of the one given, whose profile slice is taken over and overwritten |
| ConfigStore.Store.ApplyConnectionDefaults | backend/service/config_store.go:207-244 | filling the map and the slice in place gives the normal form of what was stored |
| ConfigStore.FillRoutes | backend/service/config_store.go:218-222 | the loop over the default routes gives the specified routes in whatever order the map yields them |
| ConfigStore.FillProfiles | backend/service/config_store.go:223-243 | every profile is overwritten with its normal form |
| ConfigStore.FillProfile | backend/service/config_store.go:224-242 | filling the fields one after the other gives the specified profile |
| ConfigStore.NormalIsNormal | backend/service/config_store.go:207-244 | normalising any configuration gives profiles, routes for all features, complete profiles and a positive cooldown |
| ConfigStore.NormalExactly | backend/service/config_store.go:207-244 | a configuration is left alone by normalising if and only if it has those properties |
| ConfigStore.NormalIsIdempotent | backend/service/config_store.go:207-244 | normalising twice is normalising once, for every configuration |
| ConfigStore.DefaultsAreNormalExactly | backend/service/config_store.go:167-205 | the defaults are normal if and only if the pooled profile has a port or the direct one has none |
| ConfigStore.DisabledExactly | backend/service/config_store.go:240-242 | a profile is off after normalising if and only if it was off and has no name |
| ConfigStore.GetSettings | backend/handler/settings.go:27-34 | shows the stored configuration with a token that is there replaced by the mask, and leaves the store alone |
| ConfigStore.UpdateSettings | backend/handler/settings.go:36-50 | the handler stores the normal form of what was posted, with the mask replaced by the stored token |
| ConfigStore.PostingBackKeeps | backend/handler/settings.go:27-50 | posting back what was displayed gives the normal form of what was stored, token included, so it changes nothing if and only if that was normal |
| ConfigStore.DisplayHidesToken | backend/handler/settings.go:29-32 | what is displayed depends on the token only through whether there is one |
| ConfigStore.InterleavedExactly | backend/handler/settings.go:42-47 | a post that lands between the two lock sections of another is as if they came one after the other, unless the other keeps the token by the mask and the token was changed: then that change is lost |
| ConfigStore.PostsKeep | backend/handler/settings.go:36-50 | after every run of posts the configuration is normal and its token is the last one posted that was not the mask |

## Left out

- HTTP handlers, routing, WebSockets, SQL and object storage: their results are inputs.
- The behaviour of `wal-g`, `pg_ctl`, `pg_dump` and `pg_restore`: a step succeeds with its stated effect, or fails and leaves PostgreSQL and the directory in any state.
- `RestartPostgreSQL` in backend/handler/config.go:93-105 takes no mutex; the restore protocol assumes that nobody uses it during a restore. A crash of PostgreSQL is modelled.
- Argument checks in front of the workers: parsing of the target time, of which only is used that a timestamp has no quotes, backslashes and line breaks; resolving of "LATEST"; the configured retention, which shows as the outcome of the prune.
- The contents of a backup: the configuration that a fetch brings is arbitrary text. Include directives, octal escapes and the refusal of files with syntax errors are not part of the reader; a missing file counts as an empty one.
- `repack.go`: its check and its later clearing of the running flag are separate lock sections, so single execution is not asserted.
- `plan_store.go` and the history in `sql.go`: weaker forms of the job table and the event log.
- The frontend, shell scripts and container files.
- Floating-point display (`formatBytes`, the digits of `humanBytes`), `/proc` parsing, random identifiers and passwords, Telegram and logging.
- JSON and file persistence: taken as the identity on configurations; merging a stored file into the defaults at start-up is not modelled.
- JobStore.JobStore.Draw: the 64-bit wrap-around of the sequence number is not modelled, because it takes 2^64 jobs.
- JobStore.CloneJob: the finishing time is a value here and a pointer in the source, so its copying is not visible.
- JobStore.JobStore.List: the loop ends by its condition where the source leaves it by `break`.
- JobStore.JobStore.Finish: the caller's artifact is stored without a copy, as in the source; callers that change it afterwards are not excluded.
- Alerter.Alerter.Check: message and value texts are inputs, the rounding of the percentage is a parameter, and the states are map values instead of pointers.
- PoolCache.PoolManager.GetPoolForProfile: states what an undisturbed request returns; that a returned pool stays open is not claimed, because it can be evicted before it is used.
- PgBouncerConfig.SettingsAfterRewrite: PgBouncer is taken to read a line as the rewriting does; supplied keys that the file lacks are not added, as in the source.
- Scheduler.Scheduler.Start: the incremental ticker and the `select` of the loop are not modelled beyond the interval and the cancellation; a cancelled loop can still finish a tick, or take one more that was ready.
- Sessions.PasswordAuth.Login: the comparison of the password is equality, without its timing.
- WalPosition.Monitor.GetWalStats: rates are exact real numbers.
- Tuner.Calculate: only the memory settings; the other recommendations are constants or small case distinctions, and the current values shown beside them are left out.
- Tuner.CalculatePgMaxConn: the overflow of four times the number of cores is not modelled.
- Tuner.ShownAsItselfExactly: sizes beyond what PostgreSQL accepts for a setting are refused by the server and not modelled.
- WalRestore.RestoreSucceeds: the steps of one worker; what holds in every interleaving is `OutcomeExactly`, `StartReachesGoal` and `NoMoreCommands`.
- Tuner.FormatRoundsDown: quotients are exact; sizes from 2^53 bytes on, where `float64` rounds, behave as if it did not.
- ConfigStore.UpdateSettings: undisturbed here; what an update in between does is `InterleavedExactly`. The restart of the scheduler behind it is `Scheduler.Start`. The descriptions of the default profiles are parameters.
- Strings are sequences of characters; invalid UTF-8 is not modelled.
