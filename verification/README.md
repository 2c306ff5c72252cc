# RouterForge engines, modelled and proved

RouterForge keeps several small stateful engines behind its HTTP routes. This
project models them in Dafny and proves what they keep over every run, every
interleaving and every input. `dafny verify dfyconfig.toml` checks all of it.

What the files are about:

- `ManagedTree`, `VaultHost`, `ConfigVault`, `VaultApply`, `Transactions`,
  `VaultRestore`: the config-vault restore. A mutable managed tree and snapshot
  store in which any system call may fail at any time; discovery, diff, apply,
  read-back, rollback and the transaction that drives them.
- `TerminalBuffer`: the bounded output buffer of a terminal session against the
  unbounded stream. `TerminalSessions`: the session manager as a state machine
  over its critical sections.
- `NfqwsJobs`, `NfqwsRuntime`, `NfqwsStorm`: job normalization, the job runtime
  under ticks, manual runs, reconfiguration and asynchronous completion, and
  what its storm guard needs. `Watchdog`: the start limiter.
- `LoginAttempts`: the bounded table of failed logins.
- `LineCapture`, `LineSplits`, `LineWindows`, `AppRegistry`: the output capture
  of the App Center, how far it depends on the writes, and the job registry.
- `WebSocketFrames`: reader and writer against sections 5.2, 5.3 and 5.5 of
  RFC 6455. `UnixCrypt`: crypt strings with the hash functions as parameters.
- `DeviceAlerts`: the storage and thermal alerts.
- `Text`, `Orders`, `Sequences`, `Wrappers`: Go strings, cuts of finite sets and
  sorting, optional values and results.

Engines whose source updates state in place are classes; their methods are tied
to functions of the old state, and the results about runs are lemmas on those
functions. Map iteration is a choice of any remaining key, so a contract that
names one result holds for every iteration order. In the run models an event
that cannot happen leaves the state alone, so all event sequences are covered.

## Where the code differs from what one expects

- A name that ends in white space is recorded without it, because the store
  trims the path of each artifact. When such a file is captured it clashes with
  the file of the trimmed name, and the safety snapshot is refused when it is
  needed. The smallest such tree is `ManagedTree.UntidyWitness`
  (`ManagedTree.CaptureIsRestorableIffTidy`).
- The store takes an existing object for the content of a file when the digest
  agrees; a restore also asks for the length.
- "Rollback always works" therefore holds exactly for trees without such names
  and without such objects, and with at most 128 old and present files together
  (`VaultRestore.Rollback`). A tree and a target that are both far below 128 can
  exceed it together: then the apply writes everything, cannot list the files
  any more, and cannot be rolled back (`VaultRestore.NoWayBack`).
- A failed atomic write ignores the error of its own clean-up, so a temporary
  file can stay behind, inside the managed tree. It counts towards the 128. A
  failed capture ignores the error of removing its manifest in the same way.
- Even a welcome target needs room for the leftover of one failed write. With it
  a single failing call never leaves a restore in doubt
  (`VaultRestore.OneFailureIsSafe`), without it one can
  (`VaultRestore.OneLeftoverIsTooMany`).
- The safety capture may prune the target snapshot, unless it is the last
  working one. The restore then fails at its validation with the tree untouched;
  only a target without files gets to the apply, and rolls back. Directories made by an apply survive its rollback:
  the state compared is that of the regular files.
- The watchdog's three starts an hour need reservations that are not earlier
  than the prunes before them: a status call with a later clock reading than
  the running tick forgets an attempt too early (`Watchdog.OrderIsNeeded`), and
  no lateness at all is harmless (`Watchdog.ThreeStartsIffOrdered`). The five
  minutes between two starts need nothing.
- The 15 minutes after a completion, a configuration or a start of the NFQWS
  scheduler need ordered readings too. A completion reads the clock before it
  takes the lock, so a configuration can come between the two, and the next tick
  counts from the earlier instant (`NfqwsStorm.OrderIsNeeded`). Readings that
  are late by d make a start too early by at most d
  (`NfqwsRuntime.NoRestartStorm`), and only d = 0 keeps the 15 minutes
  (`NfqwsStorm.GuardIffOrdered`).
- The truncation mark of the line capture is also set by an empty write at
  exactly 64 KiB (`LineCapture.TruncatedExactly`,
  `LineCapture.EmptyWriteTruncates`).
- A finished line longer than 2048 bytes is cut or not depending on the writes;
  an unfinished end of any length is cut the same way by all of them
  (`LineSplits.PiecesIgnoreSplitIffShort`). The callback notices exactly when
  the line, apart from white space at its ends, does not lie in one window of
  2048 bytes (`LineWindows.CallbackIgnoresSplitIffWindows`).
- The login table uses the empty string for "no victim". An empty client key is
  never evicted by capacity, and while it is the first to evict, the victim
  depends on the iteration order and there may be none
  (`LoginAttempts.OneVictimIff`, `LoginAttempts.AnyVictim`). The clean-up is the
  specified one exactly when the empty key is not among those to evict.
- The WebSocket reader also takes length forms that are longer than necessary,
  where section 5.2 of RFC 6455 asks senders for the shortest.
- A `rounds=` value beyond the platform's int is an error, where crypt(3)
  clamps it.

## Model

| member | source | states |
|---|---|---|
| `VaultRestore.Restore` | components/control/maintenance_config_vault_restore.go:36-192 | the whole transaction under any pattern of failing calls: an end before the apply leaves the tree untouched; Committed means the tree holds exactly the target by digest; rolled back means the old path-to-digest map; otherwise Ambiguous, and then only because a call of the rollback failed, a name ends in white space, an object of one digest has another length, or the old files and those in the tree that is left are more than 128; every file left is old, the target's, or one of at most two leftovers of failed writes. A leftover, or a welcome target on record that is not committed, takes a failing call before the rollback; so with at most one failing call in all and room for a leftover a welcome target never ends Ambiguous. When no call fails, the stage follows from the start: the precheck if and only if the tree cannot be discovered, else the safety snapshot if and only if the tree cannot be captured as it is, else, unless two files of one digest differ, the validation if and only if an object of the target is neither stored nor a file of the tree in its right form; and then Committed if and only if the target is still on record and the tree welcomes it (nothing in the way of any path, no path above another, 128 files in all), else RolledBack if and only if the old tree is tidy, nothing clashes, and the old files with those written before the first obstacle are at most 128. The last working snapshot stays on record |
| `VaultRestore.Prepare` | components/control/maintenance_config_vault_restore.go:88-130 | discovery, safety snapshot and content validation only read the tree; on the way to Applied the safety snapshot is on record, otherwise the transaction is Failed; without failing calls the precheck fails only on a tree that cannot be discovered, the safety snapshot only on a file over 2 MiB, an ill-formed or repeated id, or a stored object that belies its digest, and the validation only on an unreadable target |
| `VaultRestore.ReadableFromStart` | components/control/maintenance_config_vault_restore.go:100-114 | whether the target can be read after the safety capture, told from the tree and the objects before it |
| `VaultRestore.ClashFromStart` | components/control/maintenance_config_vault_restore.go:100-172 | whether an object of the safety snapshot has another length, told from before the capture |
| `VaultRestore.Commit` | components/control/maintenance_config_vault_restore.go:132-183 | from Applied to a terminal state: what each outcome means for the tree, what causes it and how many calls failed for it, and, when no call fails, exactly which outcome it is |
| `VaultRestore.RollbackAndSettle` | components/control/maintenance_config_vault_restore.go:132-172 | RolledBack exactly when the rollback was verified, otherwise Ambiguous; with no further failing call RolledBack if and only if the old state can be brought back among the present files |
| `VaultApply.ValidateManifest` | components/control/maintenance_config_vault_restore.go:217-252 | accepts exactly the manifests with schema 1, component admin, at most 128 artifacts, distinct ids that are not empty, and distinct paths strictly below the root with plain names and no white space at the end |
| `VaultApply.ValidateContent` | components/control/maintenance_config_vault_restore.go:254-268 | accepts exactly valid manifests whose objects can all be read, when no call fails |
| `VaultApply.EnsureParent` | components/control/maintenance_config_vault_restore.go:286-324 | adds directories only, and on success exactly the missing parents; when no call fails it succeeds if and only if the path is restorable, the root is a directory and everything there is above the path is one |
| `VaultApply.RestoreOne` | components/control/maintenance_config_vault_restore.go:335-359 | one round of the write loop: the missing parents and this file with the recorded content, or at most one new leftover file; when no call fails it succeeds if and only if the object can be read and nothing is in the way |
| `VaultApply.WriteAll` | components/control/maintenance_config_vault_restore.go:335-359 | any prefix of the write loop: nothing disappears or changes kind, and no file is torn; when no call fails it stops exactly at the first obstructed artifact, with exactly the files before it written |
| `VaultApply.PlacedClear` | components/control/maintenance_config_vault_restore.go:286-359 | writing a path takes away exactly the paths above and below it from those that can still be written |
| `VaultApply.OpenIffPlaceable` | components/control/maintenance_config_vault_restore.go:329-359 | all artifacts can be written one after the other, in any order, if and only if each path is clear in the old tree and none lies above another |
| `VaultApply.RemoveExtras` | components/control/maintenance_config_vault_restore.go:361-380 | any prefix of the remove loop removes regular files only; when it completes, exactly the listed files outside the targets are gone |
| `VaultApply.Apply` | components/control/maintenance_config_vault_restore.go:326-381 | when it succeeds, the regular files are exactly the manifest's paths with the recorded digests, whatever files existed before; otherwise the tree keeps the shape of the old one and no file is torn; when no call fails it succeeds if and only if the snapshot is valid and readable and the tree welcomes it |
| `VaultRestore.Rollback` | components/control/maintenance_config_vault_restore.go:383-400 | from every tree an interrupted apply can leave, and when no further call fails: succeeds if and only if no name of the old tree ends in white space, no object of one digest has another length, and old and present files together are at most 128; success means the old path-to-digest map |
| `VaultRestore.SafetyIsApplicable` | components/control/maintenance_config_vault_restore.go:286-400 | no safety-snapshot path ever becomes obstructed: from every tree that keeps the shape of the old one the safety snapshot can be applied exactly under the three conditions of the rollback |
| `VaultRestore.NoWayBack` | components/control/maintenance_config_vault_restore.go:326-400 | a concrete tree of 65 files and a valid target of 64 others: when no call fails, every restore that reaches its apply ends Ambiguous |
| `VaultRestore.OneFailureIsSafe` | components/control/maintenance_config_vault_restore.go:132-183 | with at most one failing call, a welcome target that is readable, and room for one leftover, the end is Committed or RolledBack |
| `VaultRestore.OneLeftoverIsTooMany` | components/control/maintenance_config_vault_restore.go:326-400 | the room is needed: in a concrete tree of 128 files, a welcome target and the leftover of one failed write leave no way back |
| `ManagedTree.CaptureIsRestorableIffTidy` | internal/platform/configvault/vault.go:152-227 | a capture can be restored if and only if no discovered name ends in white space, and then it holds the captured state |
| `ManagedTree.UntidyWitness` | internal/platform/configvault/vault.go:342-391 | the concrete tree with files `a` and `a ` is discovered and captured, and its snapshot is refused by every restore |
| `VaultHost.Host.Capture` | internal/platform/configvault/vault.go:152-227 | succeeds without a failing call if and only if the ids are distinct and well formed, each path but for white space at its end is a file of at most 2 MiB, and an object already stored under its digest has that digest; then it records exactly these paths in the order of their ids, an object of the right digest behind each, and stores nothing else; no other snapshot changes, some may be pruned but never the last working one; a failed capture may leave its snapshot on record |
| `VaultHost.CaptureInFields` | internal/platform/configvault/vault.go:342-391 | what is recorded: for each path the path without the white space at its end, and digest and size of the file there |
| `VaultHost.IdOrder` | internal/platform/configvault/vault.go:191-191 | the records are in the order of their ids |
| `ManagedTree.IdIsListed` | internal/platform/configvault/vault.go:31-31 | the id pattern, character by character |
| `VaultHost.Host.ReadArtifact` | internal/platform/configvault/vault.go:562-619 | returns the first record of the id, and only with an object of its size, at most 2 MiB, and digest; without a failing call it fails only when that record has none |
| `VaultHost.Host.StoreObject` | internal/platform/configvault/vault.go:405-429 | a missing object is written, an existing one is kept if its digest is right, whatever its length |
| `VaultHost.Host.Publish` | internal/platform/configvault/vault.go:216-227 | after the new manifest is written, the oldest other snapshots are removed, and objects that no remaining snapshot refers to; when that fails the new manifest may stay or go |
| `VaultHost.Host.Prune` | internal/platform/configvault/vault.go:440-519 | retention removes exactly the oldest snapshots other than the new and the last working one, by instant and then id, keeps every object a remaining snapshot refers to, and on success leaves no other object and no more snapshots than allowed |
| `VaultHost.Host.List` | internal/platform/configvault/vault.go:229-268 | every snapshot once, the newest first, and by id where instants agree |
| `VaultHost.Host.WriteFileAtomic` | internal/safety/atomic.go:92-119 | all or nothing for the destination; a failed write may leave one temporary sibling |
| `ConfigVault.Discover` | components/control/maintenance_config_vault.go:75-136 | lists every regular file once in path order, and fails without a failing call exactly when the root is no directory or there are more than 128 files |
| `ConfigVault.DiscoveryMeans` | components/control/maintenance_config_vault.go:75-136 | what that is: every regular file once, by its path as a string; a root that is a directory or missing, and at most 128 files |
| `ManagedTree.PathStringNext` | components/control/maintenance_config_vault.go:75-136 | a path as a string: each name after a slash |
| `ConfigVault.BuildDiff` | components/control/maintenance_config_vault.go:316-394 | the diff is exact: changed exactly when the tree does not hold the snapshot, each path of the union once, sorted, with its right status and digests |
| `ConfigVault.DiffIsExact` | components/control/maintenance_config_vault.go:316-394 | the two loops' items, sorted, are an exact diff |
| `ConfigVault.ChangedIffDifferent` | components/control/maintenance_config_vault.go:330-380 | the changed flag is set if and only if the path-to-digest maps differ |
| `ConfigVault.Sha256RegularFile` | components/control/maintenance_config_vault.go:396-410 | the digest of the file's content |
| `Transactions.Transaction.Advance` | internal/platform/transaction/transaction.go:143-186 | moves along the transition table only; terminal states have no way out |
| `Transactions.TerminalIsFinal` | internal/platform/transaction/transaction.go:143-186 | the terminal states are exactly those without a way out |
| `TerminalBuffer.Session.AppendOutput` | components/control/terminal_sessions_linux.go:587-599 | after any append the buffer is the newest 262144 bytes of the whole stream and the cursors are absolute |
| `TerminalBuffer.Session.Shift` | components/control/terminal_sessions_linux.go:591-596 | the in-place copy drops exactly the oldest bytes |
| `TerminalBuffer.Session.ReadOutput` | components/control/terminal_sessions_linux.go:601-625 | a read is the part of the unbounded stream from the cursor on, brought between the oldest kept byte and the end, at most 65536 bytes; dropped exactly when the cursor was before the oldest |
| `TerminalBuffer.PollingReassembles` | components/control/terminal_sessions_linux.go:587-625 | under every interleaving of output and polls the pieces a client got tile the stream: nothing twice, nothing out of place, nothing missing but what a dropped flag announced |
| `TerminalBuffer.ClientAccounting` | components/control/terminal_sessions_linux.go:601-625 | received and lost bytes add up to the cursor; without a loss the client has the stream |
| `TerminalBuffer.PollAdvances` | components/control/terminal_sessions_linux.go:601-625 | a poll before the end advances; dropped is set exactly when the client fell behind by more than the buffer |
| `TerminalBuffer.FourPollsDrain` | components/control/terminal_sessions_linux.go:601-625 | four polls bring any client to the end of a quiet stream |
| `TerminalSessions.Manager.FirstSection` | components/control/terminal_sessions_linux.go:314-334 | removes the client's sessions and refuses at four others |
| `TerminalSessions.Manager.SecondSection` | components/control/terminal_sessions_linux.go:362-395 | removes exactly what the client got meanwhile, inserts exactly when fewer than four others are left, and leaves these as they are |
| `TerminalSessions.Manager.TakeStale` | components/control/terminal_sessions_linux.go:413-427 | removes exactly the closed or idle sessions |
| `TerminalSessions.StepKeepsInv` | components/control/terminal_sessions_linux.go:314-427 | every critical section, shell start, exit and close keeps the invariant |
| `TerminalSessions.SweepIsSection` | components/control/terminal_sessions_linux.go:413-427 | a clean-up step of the runs takes exactly the closed and idle sessions |
| `TerminalSessions.FirstIsSection` | components/control/terminal_sessions_linux.go:314-334 | the step to the first section takes the sessions of the client and ends at four others |
| `TerminalSessions.SecondIsSection` | components/control/terminal_sessions_linux.go:362-395 | the step to the second section takes the sessions of the client and inserts below four others, otherwise closes the new one |
| `TerminalSessions.SessionsBounded` | components/control/terminal_sessions_linux.go:314-427 | in every interleaving: at most four sessions, never two of one client, and every started shell is in the map, closed, or owned by a thread about to close or insert it |
| `TerminalSessions.LiveShellsBounded` | components/control/terminal_sessions_linux.go:314-427 | at every moment of every interleaving a live shell is in the map or in the hands of a thread that closes or inserts it, so beside those at most four are alive |
| `TerminalSessions.NoShellLeaks` | components/control/terminal_sessions_linux.go:314-427 | once all requests are finished, every live shell is in the map |
| `Watchdog.Runtime.ReserveAttempt` | components/control/maintenance_watchdogs.go:345-368 | grants if and only if the service is enabled, fewer than three of its attempts are within the last hour, and its last one is missing or at least five minutes ago |
| `Watchdog.Runtime.PruneAttempts` | components/control/maintenance_watchdogs.go:390-401 | keeps exactly the attempts not older than an hour |
| `Watchdog.Runtime.AttemptsLastHour` | components/control/maintenance_watchdogs.go:274-321 | a status call prunes the table it reports |
| `Watchdog.Runtime.Configure` | components/control/maintenance_watchdogs.go:236-272 | changes the enabled flag only when the file was written |
| `Watchdog.StartsAreSpaced` | components/control/maintenance_watchdogs.go:345-368 | in every run, whatever the instants, starts of one service are five minutes apart |
| `Watchdog.ThreeStartsAnHour` | components/control/maintenance_watchdogs.go:323-401 | in every run whose reservations are not before earlier prunes, no closed hour holds more than three starts of a service |
| `Watchdog.OrderIsNeeded` | components/control/maintenance_watchdogs.go:274-368 | the order is needed: a concrete run with an early status call starts a service four times in one closed hour |
| `Watchdog.ThreeStartsIffOrdered` | components/control/maintenance_watchdogs.go:274-401 | three starts an hour hold in every run whose reservations are at most d earlier than a previous prune, if and only if d allows no lateness |
| `Watchdog.StartsWhileOn` | components/control/maintenance_watchdogs.go:236-368 | in every run each start was granted while the last saved configuration of its service was on |
| `NfqwsJobs.NormalizeIsNormal` | components/control/maintenance_nfqw_jobs.go:116-151 | what normalization accepts it returns unchanged the second time |
| `NfqwsJobs.NormalizeMeans` | components/control/maintenance_nfqw_jobs.go:116-151 | a request is accepted if and only if its id has 1 to 64 letters, digits, hyphens and underscores, its interval is from 15 to 1440 minutes, and its kind is known and its target of the form this kind asks for |
| `NfqwsJobs.NormalizedIs` | components/control/maintenance_nfqw_jobs.go:116-151 | what is stored: the request but for space, case and a final dot |
| `NfqwsJobs.OneDotGoes` | components/control/maintenance_nfqw_jobs.go:131-131 | one dot at the end of a hostname goes |
| `NfqwsJobs.CaseMeans` | components/control/maintenance_nfqw_jobs.go:118-137 | case mapping, letter by letter, as far as it leads into ASCII |
| `NfqwsJobs.HostnameMeans` | components/control/maintenance_nfqw_jobs.go:43-43 | a hostname has two or more labels of 1 to 63 letters, digits and inner hyphens |
| `NfqwsJobs.LabelsAre` | components/control/maintenance_nfqw_jobs.go:43-43 | the labels are what stands between the dots |
| `NfqwsJobs.OctetMeans` | components/control/maintenance_nfqw_jobs.go:132-132 | the numbers of a dotted quad, digit by digit |
| `NfqwsJobs.KeyIsKindAndTarget` | components/control/maintenance_nfqw_jobs.go:221-223 | stored jobs share a key if and only if they share kind and target |
| `NfqwsRuntime.Classify` | components/control/maintenance_nfqw_jobs.go:272-310 | the outcome of every answer: failed exactly on an error or a status outside 2xx, otherwise exactly which bodies are unhealthy and inconclusive for each kind |
| `NfqwsRuntime.Attempt` | components/control/maintenance_nfqw_jobs.go:313-323 | one retry, made exactly when the first answer errored or was 500 or above |
| `NfqwsRuntime.Runner.Load` | components/control/maintenance_nfqw_jobs.go:153-171 | the normalized items of the file in some visiting order, at most 32; none when the file cannot be read |
| `NfqwsRuntime.LoadedComeFrom` | components/control/maintenance_nfqw_jobs.go:153-171 | each item comes from one of the file that was normalized, and below 32 every such item has come in |
| `NfqwsRuntime.LoadedIsNormal` | components/control/maintenance_nfqw_jobs.go:153-171 | whatever the file holds: at most 32 items, each normalized and under its own id |
| `NfqwsRuntime.Runner.Start` | components/control/maintenance_nfqw_jobs.go:188-219 | the first start takes the items of the file and schedules each one interval ahead; a second one does nothing |
| `NfqwsRuntime.Runner.Tick` | components/control/maintenance_nfqw_jobs.go:225-255 | starts only stored items that are enabled, were not running, have a free key and whose next run has come, and every such item unless its key was taken before or by another start of this tick; no two with one key |
| `NfqwsRuntime.TickStarts` | components/control/maintenance_nfqw_jobs.go:225-255 | the same of the visits in any order |
| `NfqwsRuntime.TickStartsEnabled` | components/control/maintenance_nfqw_jobs.go:225-255 | in every run a tick never starts a job that is disabled at that moment |
| `NfqwsRuntime.TickIsItsVisits` | components/control/maintenance_nfqw_jobs.go:225-255 | a whole tick equals a run of single visits |
| `NfqwsRuntime.TickLeavesNoneDue` | components/control/maintenance_nfqw_jobs.go:225-255 | after a tick no visited job is still due |
| `NfqwsRuntime.Runner.Execute` | components/control/maintenance_nfqw_jobs.go:312-356 | the completion writes the state of this job only: outcome, status, output, retries, counters, cadence, last good values and the next run one interval ahead; and it frees the key it was started with |
| `NfqwsRuntime.Runner.Configure` | components/control/maintenance_nfqw_jobs.go:564-607 | accepts exactly normalizable jobs that replace one or are among at most 32, once saved; the item is stored and its next run is one interval ahead; nothing else changes |
| `NfqwsRuntime.Runner.RunNow` | components/control/maintenance_nfqw_jobs.go:621-646 | starts exactly when neither the job nor its key is running, enabled or not, and marks just these |
| `NfqwsRuntime.SingleFlight` | components/control/maintenance_nfqw_jobs.go:221-356 | in every interleaving, also with reconfiguration of a running job: in-flight executions have distinct ids and keys, the running keys are theirs, and running holds exactly while in flight |
| `NfqwsRuntime.NoTwoAlike` | components/control/maintenance_nfqw_jobs.go:221-356 | no two executions of one kind and target overlap |
| `NfqwsRuntime.NoRestartStorm` | components/control/maintenance_nfqw_jobs.go:225-356 | in every run, a tick starts no job within 15 minutes of any of its completions, configurations and scheduler starts, less the lateness of its clock readings |
| `NfqwsRuntime.NotSoonAfterLastTouch` | components/control/maintenance_nfqw_jobs.go:225-255 | whatever the readings, a tick starts no job within 15 minutes of the newest of these entries |
| `NfqwsStorm.OrderIsNeeded` | components/control/maintenance_nfqw_jobs.go:312-356 | a concrete run, a job configured while it runs whose completion read the clock before, lets a tick start the job too early |
| `NfqwsStorm.GuardIffOrdered` | components/control/maintenance_nfqw_jobs.go:225-356 | the 15 minutes hold in every run whose readings are at most d late if and only if d allows no lateness |
| `NfqwsRuntime.NextRunIsSet` | components/control/maintenance_nfqw_jobs.go:237-240 | the fallback for a missing next run is unreachable |
| `NfqwsRuntime.ItemsStayNormal` | components/control/maintenance_nfqw_jobs.go:583-604 | at every time at most 32 items, each a fixpoint of normalization under its own id |
| `NfqwsRuntime.HistoryIsKept` | components/control/maintenance_nfqw_jobs.go:313-353 | the state always tells the completions: their number, the last one, the cadence, the last good one, and one retry exactly when the first answer failed or was 500 and above |
| `NfqwsRuntime.RecordsAreCut` | components/control/maintenance_nfqw_jobs.go:312-353 | in every run the output kept of a completion is its trimmed output cut at 4096 bytes |
| `LoginAttempts.Manager.LoginBlockedFor` | components/core/auth.go:384-397 | the wait told is the rest of the block of the entry before the clean-up, for every client key |
| `LoginAttempts.Manager.RecordLoginFailure` | components/core/auth.go:399-415 | the entry after the failure, with the fifth one within five minutes as a block of thirty seconds, and the table cleaned up, for every client key |
| `LoginAttempts.Manager.ClearLoginFailures` | components/core/auth.go:469-473 | forgets exactly this client |
| `LoginAttempts.Manager.Cleanup` | components/core/auth.go:417-444 | for every table and iteration order: what is left has not expired; what goes without having expired is neither kept nor empty and leaves 1024 or more; and without the empty key at most 1024 are left, and whoever goes is blocked only if those that stay are, and among equals was touched no later, by the lesser key where instants agree. With the empty key it ends with exactly the specified entries if and only if that key is not among the first others in eviction order |
| `LoginAttempts.Manager.PickVictim` | components/core/auth.go:428-438 | by any iteration the victim of the scan, which is the first other entry in eviction order, told from the fields of the entries, unless that is the empty key |
| `LoginAttempts.OneVictimIff` | components/core/auth.go:427-443 | above capacity the victim is the same for every iteration order if and only if the empty key does not come first |
| `LoginAttempts.AnyVictim` | components/core/auth.go:427-443 | when the empty key comes first, every other entry is the victim of some order, and in some order there is none |
| `LoginAttempts.BeforeIsTotal` | components/core/auth.go:446-467 | the eviction order is a strict total order |
| `LoginAttempts.CleanedSize` | components/core/auth.go:427-443 | at most 1024 entries are left, and as many as that when there are |
| `LoginAttempts.KeptSurvives` | components/core/auth.go:417-444 | capacity never evicts the kept client |
| `LoginAttempts.EvictedComesFirst` | components/core/auth.go:427-459 | what capacity evicts precedes what it leaves: no blocked entry goes while an unblocked other stays, and among equals the earlier goes, by the lesser key where instants agree |
| `LoginAttempts.OwnEntry` | components/core/auth.go:399-444 | after a recorded failure the caller's entry is present with 0 to 4 failures |
| `LoginAttempts.CleanedUpIsStep` | components/core/auth.go:384-444 | whatever a clean-up leaves, also with the empty key, is a step of the runs |
| `LoginAttempts.TableStaysSmall` | components/core/auth.go:399-473 | in every run each entry has at most four failures, and while nobody comes with the empty key there are at most 1024 entries |
| `LoginAttempts.BlockedIsEarned` | components/core/auth.go:384-444 | in every run with ordered instants nobody is blocked without five failures within five minutes, the last less than 30 seconds ago |
| `LoginAttempts.ClientsAreAlone` | components/core/auth.go:384-473 | while at most 1024 clients appear, a client's wait depends on its own failures only |
| `LoginAttempts.FiveFailuresBlock` | components/core/auth.go:399-415 | five failures within the window block for 30 seconds, four do not |
| `LineCapture.Capture.Write` | components/core/app_center_jobs.go:104-137 | one write: the captured text grows up to 65536 bytes, the truncation mark, and what is handed on, lines without a newline and chunks of 2048 bytes, with what is pending makes up the bytes given |
| `LineCapture.Capture.Flush` | components/core/app_center_jobs.go:149-156 | hands on what is pending, once, and changes nothing else |
| `LineCapture.CapturedIsPrefix` | components/core/app_center_jobs.go:108-120 | for every split, the captured text is the first 64 KiB of the output |
| `LineCapture.TruncatedExactly` | components/core/app_center_jobs.go:108-120 | truncation is flagged if and only if more than 64 KiB were written or an empty write met the full buffer |
| `LineCapture.EmptyWriteTruncates` | components/core/app_center_jobs.go:108-120 | a write of exactly 64 KiB is not marked truncated, and an empty write after it marks it |
| `LineCapture.NothingIsLost` | components/core/app_center_jobs.go:121-135 | pieces, their newlines and the pending bytes make up the output; the pending part is newline-free and at most 2048 bytes |
| `LineSplits.EveryRunCuts` | components/core/app_center_jobs.go:121-156 | however an output is split, its lines are handed on in order, each cut after some number of 2048-byte chunks |
| `LineSplits.PiecesIgnoreSplitIffShort` | components/core/app_center_jobs.go:121-156 | for every output: all splits hand on the same pieces if and only if no finished line exceeds 2048 bytes |
| `LineSplits.CallbackIgnoresSplitIffSteady` | components/core/app_center_jobs.go:121-156 | for every output: all splits give the callback the same lines if and only if no finished line shows its cuts once white space is trimmed |
| `LineWindows.HidesIffOneTells` | components/core/app_center_jobs.go:121-147 | for any trimming, a cut of a line does not show if and only if all pieces but one are blank and that one trims like the line |
| `LineWindows.SteadyIffOneWindow` | components/core/app_center_jobs.go:121-147 | when white space is trimmed at both ends, a line shows none of its cuts if and only if everything else in it lies in one window of 2048 bytes from its start |
| `LineWindows.CallbackIgnoresSplitIffWindows` | components/core/app_center_jobs.go:121-156 | so all splits give the callback the same lines if and only if that holds for every finished line |
| `LineWindows.StrippingStrips` | components/core/app_center_jobs.go:139-147 | taking white space off both ends byte by byte is such a trimming |
| `LineSplits.SplitDoesNotMatter` | components/core/app_center_jobs.go:121-156 | with no finished line over 2048 bytes the callback gets the same lines for every split |
| `LineSplits.LongLineDepends` | components/core/app_center_jobs.go:121-137 | for every output with a longer finished line, two splits that hand it on in different pieces |
| `AppRegistry.AppActions.Start` | components/core/app_center_jobs.go:394-428 | starts exactly when no job is active |
| `AppRegistry.AppActions.SetState` | components/core/app_center_jobs.go:595-603 | the state, and the completion instant of terminal states |
| `AppRegistry.EndState` | components/core/app_center_jobs.go:508-517 | always terminal; success exactly when neither cancelled nor timed out nor failed, cancelled exactly when cancelled |
| `AppRegistry.AppActions.Finish` | components/core/app_center_jobs.go:508-517 | the end of the goroutine's action sets that state |
| `AppRegistry.AppActions.Release` | components/core/app_center_jobs.go:522-526 | clears the active id only when it is this job's |
| `AppRegistry.AppActions.AppendLine` | components/core/app_center_jobs.go:579-593 | a line that is not blank is trimmed, clipped at 2048 bytes and appended; the last 320 are kept |
| `AppRegistry.AppActions.Prune` | components/core/app_center_jobs.go:702-744 | for every visiting order and sort: nothing changes but what goes, which is finished and not active and ended no later than those that stay, by start and id where instants agree; at most 64 are left, and exactly 64 if any go |
| `AppRegistry.NewerIsTotal` | components/core/app_center_jobs.go:731-739 | the pruning order is a strict total order |
| `AppRegistry.PruneKeepsNewest` | components/core/app_center_jobs.go:702-744 | active and unfinished jobs stay unchanged; no finished job is dropped for one that ended earlier |
| `AppRegistry.ActiveIsTheOne` | components/core/app_center_jobs.go:394-528 | in every run a non-empty active id names a job, and every unfinished job is the active one |
| `AppRegistry.FinishedIsFinal` | components/core/app_center_jobs.go:488-528 | a finished job is never changed, only dropped |
| `AppRegistry.RetentionHolds` | components/core/app_center_jobs.go:488-744 | at most 64 finished jobs beside the active one, plus one for each goroutine that has still to prune |
| `AppRegistry.JobShowsLastLines` | components/core/app_center_jobs.go:579-593 | a job shows the last 320 of all its lines |
| `WebSocketFrames.Reader.ReadClientFrame` | components/control/terminal_ws_linux.go:272-323 | a frame is returned if and only if the first byte is final without reserved bits, the second masked, the length within the limits and the bytes there; opcode, payload byte by byte, and the stream left at the frame's end; and which bytes the header errors are |
| `WebSocketFrames.DecodeInBytes` | components/control/terminal_ws_linux.go:272-323 | every verdict in terms of the bytes of the stream |
| `WebSocketFrames.Unmask` | components/control/terminal_ws_linux.go:319-321 | the in-place loop is masking |
| `WebSocketFrames.ReaderAcceptsExactly` | components/control/terminal_ws_linux.go:272-323 | accepts if and only if section 5.2 of RFC 6455 parses a final, unreserved, masked frame within 64 KiB, and 125 bytes for control opcodes (section 5.5) |
| `WebSocketFrames.ReaderReadsPrinted` | components/control/terminal_ws_linux.go:272-323 | every client frame within the limits, in any of the three length forms and with any mask, is read back and the suffix left |
| `WebSocketFrames.VerdictStays` | components/control/terminal_ws_linux.go:272-323 | more bytes never change a verdict that did not wait for them |
| `WebSocketFrames.ParsedIsPrinted` | components/control/terminal_ws_linux.go:272-323 | whatever parses was printed from its opcode and payload with some mask and length form |
| `WebSocketFrames.MaskedTwice` | components/control/terminal_ws_linux.go:319-321 | masking twice is the identity (section 5.3) |
| `WebSocketFrames.XorAt` | components/control/terminal_ws_linux.go:319-321 | masking flips exactly the bits that the mask has |
| `WebSocketFrames.Writer.WriteFrame` | components/control/terminal_ws_linux.go:325-363 | the written bytes: final, unmasked, the shortest of the three length forms, byte by byte; a failing write leaves a prefix of them |
| `WebSocketFrames.WriterIsShortest` | components/control/terminal_ws_linux.go:332-356 | they parse back to opcode and payload, and every other length form is longer |
| `UnixCrypt.ParsedIsSettled` | components/core/auth_crypt.go:49-86 | what a parsed setting can be: clamped rounds, cut salt without a dollar sign |
| `UnixCrypt.ParseOfPrint` | components/core/auth_crypt.go:49-86 | printing a setting and parsing it with any digest behind it gives it back |
| `UnixCrypt.ParseImplicit` | components/core/auth_crypt.go:49-86 | a stored string without rounds: the salt up to the first dollar sign, cut, with 5000 rounds |
| `UnixCrypt.ParseExplicit` | components/core/auth_crypt.go:49-86 | with rounds: the number up to the dollar sign, brought between 1000 and 999999999, or an error |
| `UnixCrypt.ParseWithoutSalt` | components/core/auth_crypt.go:61-63 | rounds without a salt behind them are an error |
| `UnixCrypt.AtoiMeans` | components/core/auth_crypt.go:64-67 | the number of rounds may have one sign |
| `UnixCrypt.SignedMeans` | components/core/auth_crypt.go:64-67 | and then has decimal digits only, up to the largest int |
| `UnixCrypt.RepeatByteSequence` | components/core/auth_crypt.go:88-97 | byte i is byte i modulo the length |
| `UnixCrypt.CryptBase64` | components/core/auth_crypt.go:99-130 | the index loops compute the encoding |
| `UnixCrypt.SymbolIsAlphabet` | components/core/auth_crypt.go:21-21 | the symbols are the 64 characters of the crypt alphabet in their order |
| `UnixCrypt.Base64Length` | components/core/auth_crypt.go:103-103 | the length is 8n/6 rounded up |
| `UnixCrypt.Unbase64OfBase64` | components/core/auth_crypt.go:99-130 | decoding is a left inverse |
| `UnixCrypt.RunRounds` | components/core/auth_crypt.go:171-190 | the round loop |
| `UnixCrypt.RoundPieces` | components/core/auth_crypt.go:171-190 | what round i hashes, by the divisors of i among 2, 3 and 7 |
| `UnixCrypt.MixIsBits` | components/core/auth_crypt.go:150-156 | one piece for each binary digit of the key length, the lowest first |
| `UnixCrypt.TimesAt` | components/core/auth_crypt.go:159-169 | a text hashed n times over, byte by byte |
| `UnixCrypt.Order64Groups` | components/core/auth_crypt.go:203-216 | the order of the 64 bytes in closed form |
| `UnixCrypt.Order32Groups` | components/core/auth_crypt.go:194-202 | the order of the 32 bytes in closed form |
| `UnixCrypt.Order16Groups` | components/core/auth_crypt.go:285-289 | the order of the 16 bytes in closed form |
| `UnixCrypt.RunShaDigest` | components/core/auth_crypt.go:137-190 | the digest from key, salt and rounds: start value, both sequences, and the rounds over them |
| `UnixCrypt.RunShaCrypt` | components/core/auth_crypt.go:132-232 | the SHA crypt string |
| `UnixCrypt.RunMd5Crypt` | components/core/auth_crypt.go:234-296 | the MD5 crypt string |
| `UnixCrypt.VerifyUnixCrypt` | components/core/auth_crypt.go:23-47 | for every stored string: empty accepts the empty password, a leading `!` or `*` is locked, no known prefix is unsupported, a setting that does not parse is its error, and otherwise accepted exactly when stored is the printed setting followed by the encoded digest of this password |
| `UnixCrypt.AcceptsIff` | components/core/auth_crypt.go:23-47 | acceptance in one statement, for every stored string and password |
| `UnixCrypt.CryptStringIsInjective` | components/core/auth_crypt.go:192-231 | under one setting the string determines the digest |
| `UnixCrypt.ShaCryptIsFixpoint` | components/core/auth_crypt.go:132-232 | for every setting on which SHA crypt succeeds, crypting again with its output gives the same output |
| `UnixCrypt.Md5CryptIsFixpoint` | components/core/auth_crypt.go:234-296 | the same for MD5 crypt |
| `UnixCrypt.VerifyAcceptsExactly` | components/core/auth_crypt.go:23-47 | a string made from a password is accepted with exactly the passwords of the same digest |
| `DeviceAlerts.Observer.ObserveStorage` | components/core/device_events.go:241-311 | one storage observation: exactly the sampled sources are kept, each with the level of its last reading, and alerts of other objects stay |
| `DeviceAlerts.Observer.ObserveThermal` | components/core/device_events.go:313-377 | one thermal observation: exactly the sampled sensors are kept, each with the level of its last reading, and alerts of other objects stay |
| `DeviceAlerts.ClassifyStorage` | components/core/device_events.go:599-608 | critical from 90 percent, normal below 80 and for NaN |
| `DeviceAlerts.ClassifyThermal` | components/core/device_events.go:639-648 | critical from 90 degrees, normal below 80 and for NaN |
| `DeviceAlerts.AlertsFollowLevels` | components/core/device_events.go:241-377 | in every interleaving of the observers an alert is active if and only if the recorded level is not ok, with that severity, since the level was entered, and the events are exactly the changes of the level |
| `DeviceAlerts.OthersStay` | components/core/device_events.go:241-377 | in every interleaving an alert of another observer is what that observer last made it |
| `Text.LessMeans` | components/core/auth.go:458-458 | string order: a proper prefix first, otherwise by the first character that differs |
| `Text.TrimGoes` | internal/platform/configvault/vault.go:343-343 | trimming takes the white space off both ends and nothing else |
| `Text.SpacesAreListed` | internal/platform/configvault/vault.go:343-343 | the twenty-five white-space characters |

## Left out

- HTTP handlers, JSON, authorization headers and status codes: only the state steps inside the handlers are modelled.
- Contents of evidence lists, log text, error text, file modes, ownership and times.
- SHA-256, SHA-512 and MD5: parameters; only their output length is used. Two contents may have one digest.
- Writers outside RouterForge that change the managed tree while a restore runs, and a crash in the middle of a write.
- The size limits of a snapshot, of its manifest file and of the whole store are failing calls or a free choice to prune further, and a snapshot id that is taken already is a failing call.
- File names that are not valid UTF-8, and paths other than the clean components below the root.
- VaultHost.Host.Prune: does not model the sizes in bytes, so it may prune further than the number of snapshots asks for.
- VaultHost.Host.List: every stored manifest can be parsed; one that cannot is a failing call.
- LineWindows.SteadyIffOneWindow: white space is a set of single bytes; of the characters that strings.TrimSpace removes, those of several bytes are not covered by this form, but by LineWindows.HidesIffOneTells.
- TerminalBuffer.Session.ReadOutput: the 64-bit cursors are unbounded here.
- The PTY, the shell process and the idle clock of terminal sessions: a shell starts, fails or exits at any time, and any session may be idle.
- NfqwsRuntime.Runner.Execute: the calls to the manager, the parsing of its answers and the trimming of white space are parameters; a character of an output stands for one byte.
- Letters outside ASCII in job definitions beyond those whose case mapping leads into ASCII; a definition with any other is refused either way.
- Watchdog service detection and the start command itself.
- AppRegistry.AppActions.AppendLine: white-space trimming is a parameter; a character of a line stands for one byte.
- LineCapture.Capture.Write: white-space trimming of a handed-on line is a parameter; the bytes of a line are not decoded.
- The preflight and the commands behind App Center actions: a job ends in any of its terminal states.
- UnixCrypt.VerifyUnixCrypt: the constant-time comparison is plain equality.
- Percentages and temperatures are real numbers or NaN; infinities are left out.
- streamAppActionEvents, whose index does not survive the trimming of the lines, so it delivers no fixed part of them.
- The network and watchdog observers: an interface that disappears and comes back keeps its old alert, so level and alert do not correspond there.
- Backup archives, support bundles, catalog data, release indexes, the module proxy and the user interface: field-by-field checks and plumbing.
