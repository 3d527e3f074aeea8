# ServerMonitor: a verified model of its stateful protocols

ServerMonitor is an agent and a server. Most of it moves data about, but some of it keeps state whose
guarantees span whole runs: a lock file that several processes fight over, an append-only backup store with
a quota, a ban list that has to agree with the kernel, a planner that splits a query among storage tiers, and
several smaller state machines. This project models those parts in Dafny and proves what they promise, for
every input, every interleaving or every history.

`dafny verify dfyconfig.toml` checks everything. There are no assumptions beyond those written as `requires`
or listed at the end.

| file | what it models |
|---|---|
| `RunLock.dfy`, `RunLockOutcome.dfy` | the backup run lock as atomic file-system calls over inodes, any number of processes; and how each call of it ends |
| `Registry.dfy` | the node's registry of backup targets and their recorded usage |
| `Gateway.dfy`, `GatewayAnswers.dfy` | uploads and lock deletes against the disk store and the registry, interleaved step by step; and how each is answered |
| `Tracker.dfy`, `Guard.dfy`, `BanManager.dfy` | failed-login tracking, protected addresses, and the event loop that owns the kernel sets |
| `TrackerHistory.dfy` | what the tracker answers, in terms of the events alone |
| `BanDeployed.dfy`, `BanFetched.dfy` | what the kernel sets must hold, and what a fetched configuration brings about |
| `BanHistory.dfy`, `Journals.dfy` | what the manager remembers and reports over whole runs |
| `BanLinger.dfy` | when a protected address outlives its ban in the kernel |
| `LogTail.dfy` | the log cursor that drops repeated lines, and line reassembly |
| `Series.dfy` | steps, tier bounds and coverage gaps of a series query |
| `Browse.dfy`, `BrowseOutcome.dfy` | the store of backup-browse jobs, and the life of each job |
| `Alerts.dfy`, `Labels.dfy` | the alert evaluator, and the key of a label set |
| `Scheduler.dfy` | the daily and weekly backup schedule over restarts |
| `Status.dfy`, `StatusRecords.dfy`, `StatusRaces.dfy` | the backup status file and everything that rewrites it, record by record, and its reads and writes by concurrent processes |
| `Version.dfy` | the order on version strings |
| `Options.dfy`, `Text.dfy` | shared definitions |

Code that updates fields is a class whose methods are proved against a function on values; loops are methods
with invariants; protocols are transition systems. The lemmas about whole runs are stated on those functions, and
say what the runs come to without them: in terms of files and processes, of events and times, of answers and bytes.

## What the proofs found

Where a promise turned out to hold only under a condition, the code is modelled as it is, a lemma gives the
input that breaks the promise, and another lemma says exactly when it holds.

- The run lock is not exclusive in every interleaving: while one process has renamed a live holder's file away
  to inspect it, another can create a new lock file (`RunLock.InterleavedWindowBreaksExclusion`); the renamed
  file may turn out unreadable and be deleted (`RunLock.FailedReadBreaksExclusion`); and a session that has just
  checked its token removes whatever lock file is there by then (`RunLock.ReleaseRaceBreaksExclusion`).
  `RunLock.ExclusionExactly` gives the exact condition over all runs, and `RunLock.ExclusionUntilSteal` shows
  that every failure begins with the rename of a live owner's file.
- The liveness check takes a process that exists but cannot be opened for dead, so a live owner's lock can be
  reclaimed (`RunLock.MisjudgedOwnerLosesItsFile`). `RunLock.ReclaimedIsDeadExactly` shows that this is the only
  way in which a reclaimed owner can be alive.
- A lock delete that found nothing, and then removes a lock uploaded in between, frees bytes that are never
  released (`Gateway.DeleteCanLoseBytes`). `Gateway.QuotaConservation` shows that, for a target that is not
  measured again meanwhile, this is the only drift.
- A kernel element lives at least a second, so an address that has just become protected can stay in the local
  set for up to a second after its ban ended (`BanManager.ProtectedCanLinger`). `BanLinger.LingersExactly` says
  for each step exactly which addresses do.
- Unbans are remembered for 24 hours, and not over a restart. The server repeats them with every configuration,
  so an older one can lift a newer ban (`BanHistory.OldUnbanLiftsNewBan`); `BanHistory.NextDeliveryExactly` says
  of each fetch exactly when it does.
- A step that is no multiple of 300 s, whether requested (`Series.RequestedStepCountsTwice`) or picked by the
  server for a range of more than ten thousand hours (`Series.LongRangeCountsTwice`), makes the aggregate and the
  raw tier count the same samples; `Series.DoubleCountingExactly` and `Series.AutoStep` say exactly when. A
  multiple of 300 s that does not divide the origin of the database's buckets lets a bucket mix the two tiers
  (`Series.BoundaryNeverMixesExactly`).
- The raw reads behind the aggregate's retention do not stop at the end of the query: one that ends there also gets
  the samples after its end (`Series.PastTheEndExactly`).
- A data object whose name begins with two dots is stored outside the data directory, though still inside its
  repository and without colliding with anything (`Gateway.PathStaysInTypeDirectory`).
- A log line that is unfinished when it exceeds a mebibyte at the end of a read is thrown away, and its end is
  later reported as a line of its own (`LogTail.OverlongLineIsCut`, `LogTail.OverlongLineHappens`).
  `LogTail.ChunkingExactly` says exactly when lines are reported as they are.
- Failed tunnel enrolments, reconciliation and the retirement of managed repositories rewrite the status file
  without the run lock; one that read the file before a backup stored its success erases that success
  (`Status.StaleWriteLosesSuccess`). `StatusRaces.RecordsExactly` shows that among the writers of the file this is
  the only way to lose a success or a verdict.
- A cursor that starts on a long log sees only its last two mebibytes, and can miss its newest sshd line
  (`LogTail.SeedCanMissLines`); `LogTail.SeedExactly` says exactly when that makes a difference.
- SemVer makes an identifier such as `-5` alphanumeric, but the version comparison reads it as a number, and a
  number beyond 64 bits as text (`Version.Spoiled`).

## Model

| member | source | states |
|---|---|---|
| `RunLock.DeadIsDeadExactly` | internal/agent/backup/run.go:643-686 | A verdict of death is right if and only if the check did not meet a live owner, with a recorded start time, whose process it could not open (the one error that the check takes for death). That an owner that is dead is found so is `RunLockOutcome.DeadOwnerIsReclaimed`. |
| `RunLock.StepSound` | internal/agent/backup/run.go:509-694 | Every create, write, probe, rename, link, remove, exit, birth and fault, misjudgements included, keeps the protocol's invariant: tokens, owned inodes and reclaim names are never shared, and what each session relies on in the files holds. |
| `RunLock.RunSound` | internal/agent/backup/run.go:509-694 | That invariant holds in every state of every run, with any number of processes and any faults of calls and probes. |
| `RunLock.ReclaimedIsDeadExactly` | internal/agent/backup/run.go:643-686 | Over a whole run, every session that is reclaiming reclaims from a dead owner if and only if no liveness check met a live owner whose process it could not open. |
| `RunLock.RetryDeletesOnlyTheDead` | internal/agent/backup/run.go:585-605 | In every interleaving, the file that the retry branch deletes holds the token that was judged; and unless such a check came before, its owner is dead and it is the file of no live session. |
| `RunLock.MisjudgedOwnerLosesItsFile` | internal/agent/backup/run.go:669-686 | A run in which a session cannot open a live process, takes it for dead, and is about to delete the file with which that process holds the lock. |
| `RunLock.StepSafe` | internal/agent/backup/run.go:509-694 | A step that disturbs no reclaim window and misjudges no live owner keeps every live owner's file in place, or carried by someone with nothing in its place, and keeps the owner alone. |
| `RunLock.MutualExclusion` | internal/agent/backup/run.go:509-694 | At most one live process holds the lock in every state of every run in which nobody creates or links the lock file while a live owner's file is carried, the carrier's own calls succeed, and no live owner is misjudged. |
| `RunLock.ExclusionExactly` | internal/agent/backup/run.go:509-694 | Over every run, without any condition on it: at most one live process holds the lock in all states if and only if no step creates the lock file after a live holder's file was renamed or removed and before it was linked back. |
| `RunLock.DisplacedExactly` | internal/agent/backup/run.go:509-694 | In every reachable state, a live holder's file stops being the lock file exactly in a step that renames or removes it, and becomes it again exactly in a step that links it back. |
| `RunLock.RemoverLostItsOwn` | internal/agent/backup/run.go:688-694 | A step that removes another holder's lock file is made by a session that is releasing or giving up and whose own file is no longer the lock file. |
| `RunLock.LostExactly` | internal/agent/backup/run.go:585-614 | A holder's file is not the lock file if and only if some earlier step renamed or removed it and no step since linked it back. |
| `RunLock.ExclusionUntilSteal` | internal/agent/backup/run.go:585-605 | Whatever else fails, at most one live session owns the lock as long as no rename has taken a live owner's file: every failure begins with such a rename. |
| `RunLock.MutualExclusionOutsideWindows` | internal/agent/backup/run.go:585-614 | Mutual exclusion in every run where no session creates or renames the lock file while another is in its rename-inspect-restore window or has crashed there, the reads and links of that window succeed, and no live owner is misjudged; releases, probes and exits of other sessions may land anywhere. |
| `RunLock.InterleavedWindowBreaksExclusion` | internal/agent/backup/run.go:585-605 | A run without any failing call, in which a process creates the lock file while another inspects the live holder's renamed file; two live processes hold the lock. |
| `RunLock.FailedReadBreaksExclusion` | internal/agent/backup/run.go:591-595 | A run in which the renamed file of a live holder cannot be read and is deleted; a later create, when nobody carries anything, makes two holders. |
| `RunLock.ReleaseRaceBreaksExclusion` | internal/agent/backup/run.go:688-694 | A run without any failing call, in which a releasing session whose file was renamed removes the next holder's lock file; a fourth session creates it again, and two live processes hold the lock. |
| `RunLockOutcome.EnteringEndsExactly` | internal/agent/backup/run.go:509-694 | From every state of every run, a live session that enters, is left alone and has no failing call: takes the lock with its own file if there is no lock file or its owner is dead (the pid gone, or another start time); skips with every file as it was if the owner is running, or the file names no version and is younger than a day; and fails with every file as it was if the owner cannot be made out. |
| `RunLockOutcome.DeadOwnerIsReclaimed` | internal/agent/backup/run.go:569-605 | If the lock file holds a token with a known start time whose process is gone, or whose pid now belongs to a process with another start time, a session left alone gets the lock, and the lock file is its own. |
| `RunLockOutcome.TokenTells` | internal/agent/backup/run.go:618-636 | From its entry on, the token of a session tells the pid and the start time of the process that entered. |
| `RunLockOutcome.CrashedHolderIsReclaimed` | internal/agent/backup/run.go:569-605 | A process that entered and ended while the lock file held its token does not block the next session left alone, whoever has its pid by then. |
| `RunLockOutcome.ReleaseEndsExactly` | internal/agent/backup/run.go:688-694 | A holder that releases and is left alone removes the lock file if and only if it holds its own token, and touches no other file. |
| `RunLockOutcome.RenamedFileIsPutBack` | internal/agent/backup/run.go:596-605 | A session that finds that it renamed another file than the one it judged, and is left alone, links it back as the lock file unless there is a new one, and skips. |
| `RunLockOutcome.LeavesNothingBehind` | internal/agent/backup/run.go:509-694 | Whatever fails, apart from the removal of a file, a session that is alone leaves no file behind: after a skip the directory is as it was, after a failure or a release it lacks at most the lock file, and while it holds the lock only the lock file differs. |
| `RunLockOutcome.OutcomesExplained` | internal/agent/backup/run.go:509-694 | In every run, faults included: a session skips only after it met an owner that was running as far as the check could tell, or a young file without a version, or had renamed a file that it had not judged; it fails only after a call or probe of its own failed or the owner could not be made out; and it renames only a file that it has just found to hold what it judged. |
| `RunLockOutcome.FatalStepsFail` | internal/agent/backup/run.go:509-607 | After a failed call that it cannot go on without, or without an answer whether the owner exists, a session never holds the lock and never skips: it fails. |
| `Registry.LocalRegistry.ReplaceTargets` | internal/agent/backupnode/manager.go:640-676 | Listed targets are admitted or updated in order, everything else is dropped from both indexes, the indexes stay inverse to each other, and exactly the targets that need measuring are returned. |
| `Registry.ReplacedByName` | internal/agent/backupnode/manager.go:640-676 | Name by name: after a list, exactly the listed names that were known or have a usable secret are there; each has the hash, quota and revocation of its last usable entry; and a known one keeps its id, its usage and whether it was measured. |
| `Registry.AddedByName` | internal/agent/backupnode/manager.go:645-676 | Of a list with distinct names, exactly those with a usable secret that are new, not measured yet or have another secret than before are to be measured. |
| `Registry.LocalRegistry.AdmitTarget` | internal/agent/backupnode/manager.go:645-668 | One listed target: with an unusable hash it is skipped, a known one keeps its id and usage and takes the new hash, quota and revocation, a new one gets the next id; it is to be measured if it is new, was never measured or has a new hash. |
| `Registry.LocalRegistry.SetUsage` | internal/agent/backupnode/manager.go:678-686 | A measurement sets the usage of a target that is still there and makes it ready and dirty; nothing else changes. |
| `Registry.LocalRegistry.ResolveTarget` | internal/agent/backupnode/manager.go:712-727 | A target is resolved exactly if it is known, ready and not revoked and the secret's hash matches, with its own id, quota and usage. |
| `Registry.LocalRegistry.ReserveUsage` | internal/agent/backupnode/manager.go:729-749 | A negative amount is an error; otherwise the reservation is granted exactly when it is zero or the target is usable and its quota, if any, allows it, and then adds exactly that many bytes to that target. |
| `Registry.LocalRegistry.ReleaseUsage` | internal/agent/backupnode/manager.go:751-768 | A release takes bytes from that target only, down to zero at most. |
| `Registry.LocalRegistry.UsageSnapshot` | internal/agent/backupnode/manager.go:688-700 | The snapshot lists each dirty target once with its usage, lists nothing else, and clears exactly the dirty marks. |
| `Registry.LocalRegistry.RestoreDirty` | internal/agent/backupnode/manager.go:702-710 | Entries that could not be reported become dirty again, where their target still exists. |
| `Registry.DoContinues` | internal/agent/backupnode/manager.go:640-768 | Every operation keeps the two indexes mutually inverse and lets an id handed out earlier mean the same target or nothing. |
| `Registry.IdsNeverReused` | internal/agent/backupnode/manager.go:634-686 | Over every sequence of operations the indexes stay inverse and no id is ever given to another target. |
| `Registry.StaleIdIsHarmless` | internal/agent/backupnode/manager.go:729-768 | An id whose target was removed changes no usage, however much happens in between. |
| `Registry.IdChangesOwnTargetOnly` | internal/agent/backupnode/manager.go:729-768 | Reserving or releasing under one id leaves every other target as it is. |
| `Registry.UsageNeverNegative` | internal/agent/backupnode/manager.go:678-768 | Recorded usage stays non-negative over every sequence of operations with non-negative measurements. |
| `Registry.NoUsageChangeLost` | internal/agent/backupnode/manager.go:540-574 | Over every history of operations and reports, however many reports fail: each measured target is dirty, or its usage is in the report on its way, or the server has it; so once nothing is dirty or on its way, the server has every usage. |
| `Gateway.UploadBooks` | pkg/restserver/server.go:231-297 | Each step of an upload changes recorded usage by exactly the change in stored bytes and in what the upload has reserved, and an upload without a reservation is always the retry of an object that is stored. |
| `Gateway.DeleteBooks` | pkg/restserver/server.go:186-207 | Each step of a lock delete changes recorded usage by exactly the change in stored bytes and in what the delete has yet to release or has lost. |
| `Gateway.QuotaConservation` | pkg/restserver/server.go:231-297 | In every interleaving of uploads and lock deletes, recorded usage is committed bytes + reservations in flight + reservations kept after ambiguous failures + bytes freed but not released + bytes of locks that a delete removed without having seen them; it is exact if and only if no delete did that. |
| `Gateway.ClampNeverFires` | internal/agent/backupnode/manager.go:751-768 | Whatever an upload or delete is about to release is still on the books, so the clamp at zero never fires. |
| `Gateway.UsedWithinQuota` | internal/agent/backupnode/manager.go:729-749 | Usage that starts at or below a positive quota never exceeds it. |
| `Gateway.QuotaBound` | pkg/restserver/server.go:240-265 | Stored plus in-flight reserved bytes never exceed a positive quota that held at the start. |
| `Gateway.UnreservedNeverCommits` | pkg/restserver/server.go:240-273 | An over-quota retry never gets as far as writing a file: every upload that commits has its reservation, so the unaccounted-commit branch is unreachable on disk. |
| `Gateway.DeleteCanLoseBytes` | pkg/restserver/diskstore.go:253-271 | A run of one delete and one upload of the same lock after which a byte is on the books that is neither stored, reserved nor waiting to be released. |
| `Gateway.ObjectsNeverChange` | pkg/restserver/diskstore.go:94-136 | A committed object that is no lock stays, with the same bytes, for the rest of every run. |
| `Gateway.OnlyLocksDisappear` | pkg/restserver/diskstore.go:253-271 | In every step, each object keeps its bytes or is a lock and is gone. |
| `Gateway.ExactlyOneCommits` | pkg/restserver/diskstore.go:94-136 | Of any number of racing uploads to a name that is no lock, exactly one commits if the name was free and is now taken, none if it was taken before, and the stored bytes are the winner's. |
| `Gateway.OkMeansStored` | pkg/restserver/server.go:258-297 | A 200 answer to an upload means that the store held exactly the uploaded bytes under that name. When an upload is answered 200 is `GatewayAnswers.AnswersExactly`. |
| `Gateway.ConfirmedWasHeld` | pkg/restserver/blobstore.go:95-133 | An upload counts as committed, or as identical to what is stored, only if the store held exactly its bytes under its name at some moment of the run. |
| `GatewayAnswers.AnswersExactly` | pkg/restserver/server.go:231-297 | In every run, an upload that was not turned away with 413, and none of whose own calls failed, is answered 200 if and only if its name is valid for its bytes and it committed, or the store held exactly its bytes under that name when it last asked; otherwise 400 for a name that is not valid and 403 for any other. |
| `GatewayAnswers.RefusedExactly` | pkg/restserver/server.go:231-256 | In every run, an upload none of whose own calls failed is answered 413 if and only if its body is too large, or there was no room for it and it is a lock or was not found in the store. |
| `GatewayAnswers.ErrorsExactly` | pkg/restserver/server.go:258-297 | In every run, failing calls included, an upload is answered 500 if and only if one of its calls failed so that it may have committed; it then keeps its reservation. |
| `GatewayAnswers.LoneUploadExactly` | pkg/restserver/server.go:231-297 | For every store, target and upload, with nobody else at work and no failing call: the answer, the store and the recorded usage afterwards. |
| `GatewayAnswers.RetryChangesNothing` | pkg/restserver/blobstore.go:95-133 | The retry of an upload that the store holds is answered 200, with or without room for it, and leaves store and usage as they were; for a lock, if there is room. |
| `GatewayAnswers.LoneDeleteExactly` | pkg/restserver/server.go:186-207 | A delete with nobody else at work and no failing call leaves the store without the lock and takes its bytes off the books, or is answered 400 for a name that is not valid. |
| `GatewayAnswers.DeletesExplained` | pkg/restserver/diskstore.go:253-271 | In every run, a delete that succeeds left the store without the lock at a step of its own; one that does not had a name that is not valid, or one of its calls failed. |
| `Gateway.ValidNamesAreSafe` | pkg/restserver/blobstore.go:36-49 | A valid name is a single plain path element, and every hex digest is a valid name. |
| `Gateway.PathsNeverCollide` | pkg/restserver/diskstore.go:61-79 | Two objects with the same path are the same object of the same repository, and no object's file name looks like an upload in progress. |
| `Gateway.PathStaysInTypeDirectory` | pkg/restserver/diskstore.go:61-79 | An object lies below the directory of its type if and only if it is not a data object whose name begins with two dots. |
| `Tracker.Normalized` | internal/agent/ipban/tracker.go:19-33 | Any policy becomes a valid one, and a valid one is left alone. |
| `Tracker.BanTracker.Observe` | internal/agent/ipban/tracker.go:73-114 | One failure changes the record of its address only, to the specified new record, and returns a ban exactly when the specification does. |
| `Tracker.BanTracker.Import` | internal/agent/ipban/tracker.go:116-127 | An imported ban extends the ban of its address and touches nothing else. |
| `Tracker.BanTracker.Unban` | internal/agent/ipban/tracker.go:129-139 | An unban forgets its address entirely and reports whether it had ever been banned. |
| `Tracker.BanTracker.ActiveBans` | internal/agent/ipban/tracker.go:148-159 | The list holds exactly the addresses banned now, each once, sorted by expiry. |
| `Tracker.BanTracker.Prune` | internal/agent/ipban/tracker.go:161-188 | Each record is dropped, trimmed or kept as specified, and the number of dropped ones is returned. |
| `Tracker.KeepRecent` | internal/agent/ipban/tracker.go:87-94 | Filtering in place keeps exactly the failures inside the window, in order. |
| `Tracker.Duration` | internal/agent/ipban/tracker.go:101-107 | The doubling loop computes the ban of the specified length for the offence's number. |
| `Tracker.BanLengthIsCappedPower` | internal/agent/ipban/tracker.go:101-107 | The length of the (k+1)-th ban of an escalation run is min(BanTime · 2^k, BanTimeMax). |
| `Tracker.TrackerRefinesHistory` | internal/agent/ipban/tracker.go:73-188 | After every history of failures, imports, unbans and prunes with a clock that does not go back, the tracker bans exactly when the full-history ledger does, with the same expiry, failure count and repeat count; what these are in terms of the events is `TrackerHistory.BansExactly`. |
| `Tracker.PruningIsInvisible` | internal/agent/ipban/tracker.go:161-188 | Removing all Prune calls from a history changes no ban decision, expiry, failure count or repeat count. |
| `Tracker.BannedUntilExpiry` | internal/agent/ipban/tracker.go:141-146 | At every moment an address is banned exactly if the full-history specification says so, with the same expiry. |
| `TrackerHistory.BansExactly` | internal/agent/ipban/tracker.go:73-114 | After every history with a clock that does not go back, in terms of its events alone: a failure bans its address exactly if no earlier ban or import still holds and the failures within the window since the last ban and unban, this one included, reach MaxRetry; the ban lasts min(BanTime · 2^k, BanTimeMax) and counts k + 1, where k is the length of the longest chain of its bans, since the last unban, whose gaps up to now are all at most seven days. |
| `TrackerHistory.ChainIsUnique` | internal/agent/ipban/tracker.go:98-107 | There is only one such chain. |
| `TrackerHistory.PruneKeepsExactly` | internal/agent/ipban/tracker.go:161-188 | A record outlasts a prune exactly if the address is banned, a failure still counts against it, or it was banned within the last seven days. |
| `TrackerHistory.BanNamesUser` | internal/agent/ipban/tracker.go:78-113 | While a failure with a user name counts, a ban names the user of the latest one. |
| `Guard.Protected` | internal/agent/ipban/guard.go:87-111 | An address is protected exactly if it is reserved, private (unless private bans are on), local or allow-listed, and the reason given is that of the first search that hits. |
| `Guard.Private` | internal/agent/ipban/guard.go:31-39 | The search finds exactly the addresses of the private ranges. |
| `Guard.Routable` | internal/agent/ipban/guard.go:41-51 | The search accepts exactly the addresses outside all reserved and private ranges. |
| `Guard.RangesOfV4` | internal/agent/ipban/guard.go:8-29 | In dotted notation, the reserved and the private IPv4 addresses are exactly those of the listed ranges. |
| `Guard.RangesOfV6` | internal/agent/ipban/guard.go:8-29 | By the first group of the address, the reserved and the private IPv6 addresses are exactly those of the listed ranges. |
| `Guard.ContainsExactly` | internal/agent/ipban/guard.go:104-108 | A prefix contains exactly the addresses of its family in its block of 2^(width - length). |
| `BanManager.Manager.Apply` | internal/agent/ipban/manager.go:198-245 | A fetched configuration changes policy, guard, tracker, enforcer, kernel sets, unbans and fleet list exactly as specified. |
| `BanManager.Manager.EnsureEnforcer` | internal/agent/ipban/manager.go:287-357 | Setting up enforcement adopts what the kernel holds, without the protected addresses, or records why it cannot enforce. |
| `BanManager.Manager.SyncLocalFromTracker` | internal/agent/ipban/manager.go:394-406 | Every active ban is deployed to the local set, each with at least the minimum lifetime. |
| `BanManager.Manager.DisableEnforcement` | internal/agent/ipban/manager.go:408-427 | Observe mode empties both sets. |
| `BanManager.Manager.ApplyUnbans` | internal/agent/ipban/manager.go:429-470 | The listed unbans are applied in order, each once, to tracker, kernel and event log. |
| `BanManager.Manager.ApplyFleet` | internal/agent/ipban/manager.go:483-525 | The fleet set becomes exactly the routable, unprotected and unexpired entries, cut at the limit, or empty when it is not to be applied. |
| `BanManager.Manager.HandleFailure` | internal/agent/ipban/manager.go:527-574 | The method computes the specified step; what that step does to tracker, local set and event log is `BanDeployed.FailuresCarriedOut`. |
| `BanDeployed.FailuresCarriedOut` | internal/agent/ipban/manager.go:527-574 | After every run, for every failure: one older than the window, or of a protected address, changes nothing; any other is put to the tracker, and a ban is reported, with its address and expiry, exactly if one begins. It is reported as enforced if and only if enforcement is wanted and ok and no more than 10000 addresses are banned; and, while enforcement is ok, if and only if the local set then holds the address until the ban ends. |
| `BanDeployed.EveryBanIsDeployed` | internal/agent/ipban/manager.go:394-574 | Over every run, at every moment with enforcement wanted and ok: every address that the tracker bans is in the local set at least until its ban ends, unless the failure that banned it was refused because more than 10000 addresses were banned then. |
| `BanFetched.FetchTakesEffect` | internal/agent/ipban/manager.go:198-245 | After every fetch: enforcement is wanted exactly if the policy says so and the allowlist is not empty, and is ok if it was or can be set up, and otherwise says why not; guard, tracker policy and fleet list are the new ones. |
| `BanFetched.FetchedRecord` | internal/agent/ipban/manager.go:198-470 | What a fetch makes of the tracker's record of every address: gone if the address is banned and protected by the new rules, or newly unbanned while that can be carried out; extended to the end of its kernel element if the sets are taken over; and unchanged otherwise. An unban is reported exactly if it takes away a record with a ban. |
| `BanFetched.TickRetries` | internal/agent/ipban/manager.go:148-151 | A minute tick sets up enforcement that is wanted and missing, or says why it cannot; then every live unprotected element of the kernel is a ban until it ends, and every ban is deployed. |
| `BanFetched.FleetFollowsTheList` | internal/agent/ipban/manager.go:483-525 | Over every run, at every moment with enforcement ok: the fleet set is the one written at some earlier moment for the rules, policy and list of now; while the fleet is to be applied, it holds exactly the addresses of the first 50000 entries that were routable, unprotected and unexpired then, each until its last such entry expires and no less than a second, and nothing otherwise. |
| `BanHistory.EventsAccountedFor` | internal/agent/ipban/manager.go:576-587 | Over every run, acknowledgements included: the waiting events are events of the history in order, none of them acknowledged; of the newest 2000 events, all that were not acknowledged are waiting; and every event is waiting, acknowledged or counted as dropped. |
| `Journals.ForeignAck` | internal/agent/ipban/manager.go:719-738 | Acknowledging events that are not waiting, because they were dropped or acknowledged before, changes nothing. |
| `Journals.RemainingMeans` | internal/agent/ipban/manager.go:719-738 | An acknowledgement removes exactly the waiting events that it names. |
| `BanManager.Manager.AcknowledgeEvents` | internal/agent/ipban/manager.go:719-738 | The loop removes exactly the named events and keeps the others in order. |
| `BanManager.Manager.RefreshLocalAddrs` | internal/agent/ipban/manager.go:589-620 | New local addresses take effect at once in guard, tracker, local set and fleet set. |
| `BanManager.Manager.ReconcileProtected` | internal/agent/ipban/manager.go:622-637 | Exactly the banned addresses that are protected now leave the tracker and the kernel. |
| `BanManager.Manager.Tick` | internal/agent/ipban/manager.go:148-151 | The minute tick prunes, retries a missing enforcer and forgets old unbans, as specified. |
| `BanManager.StepSafe` | internal/agent/ipban/manager.go:120-637 | Every event-loop step keeps the agreement of kernel sets, tracker and guard, whatever the inputs. |
| `BanManager.KernelSetsAreSafe` | internal/agent/ipban/manager.go:198-637 | Over every run, whenever enforcement is ok: each address in the local set is an active, unprotected ban or leaves the set within a second, each address in the fleet set is routable and unprotected, and observe mode leaves both sets empty. |
| `BanManager.ProtectedOnlyInLastSecond` | internal/agent/ipban/manager.go:394-406 | A protected address in the local set is no longer banned by the tracker and leaves the set within a second. |
| `BanLinger.LingersExactly` | internal/agent/ipban/manager.go:198-637 | After every step with enforcement ok, a protected address is in the local set if and only if, before the step, its element was live with its ban over, the rules to come protect it, and the step neither ends enforcement nor unbans it. |
| `BanLinger.NothingLingersUnlessLate` | internal/agent/ipban/manager.go:394-406 | In every run in which no step deploys a ban with less than a second left, every address in the local set is an active and unprotected ban at every moment with enforcement ok. |
| `BanManager.ProtectedCanLinger` | internal/agent/ipban/manager.go:394-406 | For every routable address, a run that ends with the address protected and still in the local set. |
| `BanHistory.NextDeliveryExactly` | internal/agent/ipban/manager.go:429-470 | The next fetch that delivers an unban which was applied before differs from the same fetch without it if and only if a tick more than 24 hours after that application lies between and the fetch wants no enforcement, or has it, or can set it up; then the unban is applied again and lifts the ban the address has by then. |
| `BanHistory.DeliveryExactly` | internal/agent/ipban/manager.go:198-245 | In any state, a fetch that delivers an unban differs from the same fetch without it if and only if the unban is not remembered and the enforcement that the fetch wants is there or can be set up; then the address is forgotten by the tracker and, while enforcing, by the kernel. |
| `BanHistory.RememberedExactly` | internal/agent/ipban/manager.go:472-481 | An application of an unban is still remembered after a run if and only if the run has no tick more than 24 hours later. |
| `BanHistory.UnbansApplyOnceWithinADay` | internal/agent/ipban/manager.go:429-470 | Within 24 hours of its application, every fetch that delivers an unban has the same result as without it, whatever happened in between. |
| `BanHistory.OldUnbanLiftsNewBan` | internal/agent/ipban/manager.go:429-481 | For every routable address, a run in which the same list of unbans, delivered again after more than 24 hours, lifts a ban made since. |
| `LogTail.FileCursor.AcceptFileLine` | internal/agent/ipban/source.go:375-391 | A line is accepted and the cursor moved on as specified. |
| `LogTail.FileCursor.Seed` | internal/agent/ipban/source.go:337-373 | The new cursor is that of the parsed lines of the last two mebibytes, from the first complete line on. |
| `LogTail.SeedExactly` | internal/agent/ipban/source.go:337-373 | For every file, seeding from its end gives the cursor of the whole file if and only if that cursor turns away every line that was skipped, which is every line if the last two mebibytes have no newline. |
| `LogTail.SeedCanMissLines` | internal/agent/ipban/source.go:337-373 | For every line that parses and every two mebibytes or more after it in which nothing parses: the whole file's cursor has the line's time, the seeded one starts from nothing. |
| `LogTail.SmallFilesAreWhole` | internal/agent/ipban/source.go:337-373 | A file of up to two mebibytes is never cut: its seeded cursor is that of all its lines. |
| `LogTail.CursorMeans` | internal/agent/ipban/source.go:375-391 | After any lines, the cursor is exactly the newest time offered and the set of texts offered with it. |
| `LogTail.AcceptedExactly` | internal/agent/ipban/source.go:375-391 | For any order and repetition of lines, a line is accepted if and only if nothing newer was offered before it and it was not offered before itself. |
| `LogTail.AcceptedOnceInOrder` | internal/agent/ipban/source.go:375-391 | A (text, time) pair is accepted at most once, and accepted times never go back. |
| `LogTail.RereadYieldsNothing` | internal/agent/ipban/source.go:272-333 | A rotated file that is read again from its start yields no line that was offered before. |
| `LogTail.CutLines` | internal/agent/ipban/source.go:272-333 | The inner loop cuts off exactly the complete lines and leaves what follows the last newline. |
| `LogTail.LinesExactly` | internal/agent/ipban/source.go:272-333 | The complete lines and the rest are the pieces of the bytes between their newlines. |
| `LogTail.Reassemble` | internal/agent/ipban/source.go:272-333 | The read loop reports the lines that feeding the chunks one by one gives. |
| `LogTail.ChunkingExactly` | internal/agent/ipban/source.go:272-333 | However reads cut the file, the reported lines are those of its bytes if and only if no unfinished line exceeds a mebibyte at the end of a read. |
| `LogTail.OverlongLineIsCut` | internal/agent/ipban/source.go:272-333 | For every line that is still unfinished when it exceeds a mebibyte at the end of a read: what completes it is reported alone. |
| `LogTail.OverlongLineHappens` | internal/agent/ipban/source.go:279-303 | Reads that fit the 64 KiB buffer exist for which the reported lines are not those of the bytes. |
| `Series.ChooseStep` | internal/server/api/series.go:1283-1298 | The step is the smallest listed one that is at least the collection interval and at least the span divided by 720, rounded down, or the largest. |
| `Series.ClampStep` | internal/server/api/series.go:1304-1310 | A step is changed only if it gives more than ten thousand buckets, and is then the ten-thousandth part of the span, rounded up. |
| `Series.AutoStep` | internal/server/api/series.go:203-210 | The step the server picks is a listed one for every range of up to ten thousand whole hours and the ten-thousandth part otherwise; at a rollup boundary it is whole five-minute slots if and only if the range is of the first kind or that part is a multiple of 300. |
| `Series.LongRangeCountsTwice` | internal/server/api/series.go:203-216 | A range of 40,000,000 s without a requested step, for which the server picks 4000 s and a sample is counted twice. |
| `Series.RollupBoundary` | internal/server/api/series.go:92-102 | Ranges under 12 h have no boundary and keep their step; others get a step of at least 300 s and the last multiple of it before the live tail. |
| `Series.ColdRawGaps` | internal/server/api/series.go:116-136 | For coverage listed by start, the gaps are ordered, disjoint and hold exactly the instants of [lo, hi) that no covered interval, extended by 300 s, contains. |
| `Series.PlanReads` | internal/server/api/series.go:288-359 | The cold-raw, five-minute and raw reads are pairwise disjoint, none begins before the query or reaches for samples that are not stored, cold reads avoid everything archived, and together with it they account for every instant of [max(from, rawAvail), to). |
| `Series.PastTheEndExactly` | internal/server/api/series.go:104-136 | The cold-raw reads go past the end of the query if and only if some instant from there to the earlier of the aggregate's begin and the live tail is still stored raw and not archived; without an archive, if and only if the end of the query and the begin of raw retention both lie before that earlier one. |
| `Series.ServeSeries` | internal/server/api/series.go:203-359 | For every request: the step is the requested one, or the collection interval if that is longer, unless that gives too many buckets, or 300 s at a rollup boundary; the cut between aggregate and raw tier is where raw retention begins or, for a range of at least 12 h, the last multiple of the step before the live tail if that is later; and with a step of whole slots no sample is counted twice. |
| `Series.RequestStep` | internal/server/api/series.go:203-210 | A requested step is never below the collection interval and is widened only if it gives more than ten thousand buckets, to the ten-thousandth part of the span, rounded up. |
| `Series.DoubleCountingExactly` | internal/server/api/series.go:312-359 | Some sample is counted by both the five-minute and the raw tier if and only if the cut lies before the end of the query and inside a slot that the aggregate reads. |
| `Series.NoDoubleCounting` | internal/server/api/series.go:92-102 | With a step divisible by 300 s and the boundary inside raw retention, no sample is counted twice. |
| `Series.RequestedStepCountsTwice` | internal/server/api/series.go:92-102 | A range of over 12 h with a requested step of 450 s, for which a sample is counted twice. |
| `Series.TiersNeverMixExactly` | internal/server/api/series.go:312-359 | For any cut on a slot, no output bucket mixes the tiers on its two sides if and only if the cut is a bucket edge. |
| `Series.BoundaryNeverMixesExactly` | internal/server/api/series.go:92-102 | At a rollup boundary with a step of whole slots, no bucket mixes tiers if and only if the origin of the database's buckets is a multiple of the step. |
| `Series.ListedStepsNeverMix` | internal/server/api/series.go:1281-1298 | With buckets counted from 2000-01-03, none of the listed steps ever mixes tiers, and a step of 2100 s always does. |
| `Series.UnreadExactly` | internal/server/api/series.go:312-359 | Of the samples that are queried, retained and not archived, exactly those are read by no tier whose slot begins before the aggregate's share. |
| `Browse.BrowseStore.Cleanup` | internal/server/api/backupbrowse.go:67-90 | Every job is expired, failed as timed out or kept, as its age and state demand. |
| `Browse.BrowseStore.MakeRoom` | internal/server/api/backupbrowse.go:92-121 | Only a full store evicts, and only one ended job with the earliest finish; without one it refuses. |
| `Browse.BrowseStore.Create` | internal/server/api/backupbrowse.go:123-174 | A repeated request gets its best earlier job, a host at its limit or a store without room refuses, and otherwise exactly one new queued job appears, or none if no identifier could be drawn; an eviction made for it stands either way. |
| `Browse.BrowseStore.HasPending` | internal/server/api/backupbrowse.go:176-186 | True exactly if the host has a queued job. |
| `Browse.BrowseStore.Pick` | internal/server/api/backupbrowse.go:188-207 | Exactly the host's queued jobs go out, each once and oldest first, and are running from now on; no other job changes. |
| `Browse.BrowseStore.Finish` | internal/server/api/backupbrowse.go:209-226 | A result is taken exactly for a running or timed-out job of that host, and changes that job only. |
| `Browse.BrowseStore.Get` | internal/server/api/backupbrowse.go:228-243 | A job is shown to its own host only. |
| `Browse.StoreStaysBounded` | internal/server/api/backupbrowse.go:67-243 | Over every sequence of calls: at most 256 jobs, at most 4 queued or running per host, never two active jobs for one request. |
| `Browse.HandedOutOnce` | internal/server/api/backupbrowse.go:188-207 | Each job is handed out at most once in a run, and only to its own host. |
| `Browse.NeverQueuedAgain` | internal/server/api/backupbrowse.go:67-243 | A job that has left the queue never returns to it, even if it leaves the store. |
| `Browse.FinishedIsFinal` | internal/server/api/backupbrowse.go:209-226 | In every later state that still has the job, the record of a finished job, result included, is the same. |
| `Browse.EvictsOnlyOldestEnded` | internal/server/api/backupbrowse.go:92-121 | A job that vanishes had expired, or had ended and finished no later than any other ended job of a full store. |
| `BrowseOutcome.JobChangesExactly` | internal/server/api/backupbrowse.go:67-243 | Every call changes every job that it does not create in exactly this way: given up after 90 s in the queue or 360 s of running, running once its host picks it, ended by the first report of its host (also after it timed out), and unchanged otherwise; and it removes only a job that ended more than 600 s ago, or one that it evicts from a full store and that ended first. |
| `BrowseOutcome.NothingIsOverdue` | internal/server/api/backupbrowse.go:67-90 | After every call of every run, no job has been queued for more than 90 s, running for more than 360 s or kept for more than 600 s after its end. |
| `BrowseOutcome.EveryRecordExplained` | internal/server/api/backupbrowse.go:67-243 | Over every run, every record: a request for it created it at the time it says; it is running because its host picked it in time; it is finished because its host reported success, and failed because its host reported an error or the server gave up in the time stated. |
| `BrowseOutcome.RequestAnsweredExactly` | internal/server/api/backupbrowse.go:123-174 | A request gets the best earlier job for the same request that has not failed (a finished one first, then the newest, then the greatest id); if there is none, it is refused if its host has four jobs under way, or if 256 jobs are stored and all are under way; and else it gets a new queued job, unless no identifier could be drawn. |
| `BrowseOutcome.PickTakesAll` | internal/server/api/backupbrowse.go:188-207 | A pick hands out exactly the queued jobs of its host that are not overdue, leaves none of them queued, and each is running from now on. |
| `Alerts.LatestOpen` | internal/server/alerting/evaluator.go:523-528 | The resolving query picks an open row exactly if there is one, and one with the latest firing time. |
| `Alerts.ComparatorsMean` | internal/server/alerting/evaluator.go:423-439 | For every rule and value: ">" accepts exactly what lies above the threshold, "<" is ">" with the sides swapped, "==" accepts what neither of them does, ">=" is ">" or "==", "<=" is not ">", "!=" is not "==", and any other text accepts nothing. |
| `Alerts.Engine.Transition` | internal/server/alerting/evaluator.go:441-534 | One evaluation moves the row, history and notices of its key as specified, and touches no other key. |
| `Alerts.Engine.StaleStates` | internal/server/alerting/evaluator.go:289-310 | Exactly the pending and firing keys of the host that no measured group has. |
| `Alerts.Engine.EvaluateHost` | internal/server/alerting/evaluator.go:200-223 | After evaluating a host, the rule's alerts that are pending or firing there are exactly those whose measured value lies on a side of the threshold that the comparator accepts; every measured value was evaluated once, with that value, and whatever else was evaluated ended an alert without a measurement. |
| `Alerts.Engine.EvaluateRule` | internal/server/alerting/evaluator.go:200-223 | If every host's values could be read, that holds for every host of the rule, and otherwise for the evaluations of the hosts before the first that could not; nothing else changes. |
| `Alerts.Engine.SweepOrphans` | internal/server/alerting/evaluator.go:230-287 | Exactly the alerts of disabled rules and of hosts a rule no longer matches end, each by one evaluation with the value its row last had; the others are untouched. |
| `Alerts.Engine.EvaluateAll` | internal/server/alerting/evaluator.go:108-143 | After a round, no alert of a disabled rule or an unmatched host is up, and a rule whose values could all be read has up exactly the alerts whose value meets it now; each key was evaluated at most once, every value that could be read with that value, and the rest only to end an alert. |
| `Alerts.StateMeansHistory` | internal/server/alerting/evaluator.go:441-534 | After every sequence of evaluations, for every key: firing exactly if the predicate was true at every evaluation since some first one and one of these came at least ForS later; pending exactly if it was only true; the history is exactly the list of firing episodes. |
| `Alerts.RowShowsLatest` | internal/server/alerting/evaluator.go:441-534 | A key has a row exactly if an evaluation ever found the predicate true; its value is that of the latest evaluation that did or that ended an alert, and it says since when the key has been pending, firing or neither. |
| `Alerts.OneOpenRowIffFiring` | internal/server/alerting/evaluator.go:441-534 | Exactly one open history row while the state is firing, none otherwise. |
| `Alerts.FiresOnlyAfterHolding` | internal/server/alerting/evaluator.go:467-501 | Every history row was fired by an evaluation before which the predicate had been true at every evaluation of that key for at least ForS. |
| `Alerts.NoticesPaired` | internal/server/alerting/evaluator.go:441-534 | Every resolve notice directly follows a fire notice of its key, the last notice is a fire notice exactly while firing, and two successive fire notices are at least CooldownS apart. |
| `Alerts.NoticesExactly` | internal/server/alerting/evaluator.go:441-534 | An evaluation sends a resolve exactly when it ends a firing streak, and a fire exactly when it starts one or CooldownS has passed since the last. |
| `Alerts.CooldownWithinEpisode` | internal/server/alerting/evaluator.go:503-515 | With a clock that never goes back, any two fire notices of one episode are at least CooldownS apart. |
| `Alerts.HistoryConsecutive` | internal/server/alerting/evaluator.go:441-534 | With such a clock, each history row ends no earlier than it fired and no later than the next one fired. |
| `Labels.LabelKey` | internal/server/alerting/evaluator.go:575-592 | The key is the sorted name=value pairs, each closed by a semicolon, in whatever order the map is walked. |
| `Labels.ParseLabelKey` | internal/server/alerting/evaluator.go:312-326 | The loop computes the specified reading of a key. |
| `Labels.RoundTripExactly` | internal/server/alerting/evaluator.go:575-592 | Reading back the key of a label set gives the label set if and only if no name holds '=' or ';' and no value holds ';'. |
| `Labels.DistinctSetsDistinctKeys` | internal/server/alerting/evaluator.go:575-592 | Two such label sets never share a key, so they never share an alert state. |
| `Labels.KeyIsUnique` | internal/server/alerting/evaluator.go:575-592 | A label set has one key only, so its alert state is always found again. |
| `Labels.GatheredIsPlain` | internal/server/alerting/evaluator.go:312-326 | Whatever text is parsed, no resulting name holds '=' or ';' and no value holds ';'. |
| `Scheduler.MostRecentIsLatest` | internal/agent/backupsched/scheduler.go:294-317 | The most recent daily or weekly time is an occurrence, not after now, and no later occurrence is. |
| `Scheduler.NextIsFirst` | internal/agent/backupsched/scheduler.go:302-326 | The next daily or weekly time is an occurrence after now, and no earlier occurrence is. |
| `Scheduler.OccursExactly` | internal/agent/backupsched/scheduler.go:294-326 | An occurrence is the hour and minute of a day counted from 1 January 1970 in the zone and, for a weekly one, of the weekday counted from Sunday, 4 January 1970. |
| `Scheduler.MissedIsArmed` | internal/agent/backupsched/scheduler.go:167-173 | At boot, a job with an occurrence between its last trigger and now is armed within the jitter; otherwise its first occurrence to come is. |
| `Scheduler.ArmExactly` | internal/agent/backupsched/scheduler.go:167-173 | A missed occurrence is armed the drawn delay after now, and otherwise the first occurrence to come, the drawn delay after it. |
| `Scheduler.ArmNeverRepeatsExactly` | internal/agent/backupsched/scheduler.go:167-173 | Whatever the jitter, the armed trigger can only record a later occurrence if and only if the stored trigger lies before the first occurrence after the clock's reading. |
| `Scheduler.InvStep` | internal/agent/backupsched/scheduler.go:92-148 | Every boot, turn and crash keeps the armed times between the first unrecorded occurrence and the jitter after it, or after the boot. |
| `Scheduler.TriggersStrictlyIncrease` | internal/agent/backupsched/scheduler.go:92-148 | Over any loops, crashes and restarts with a monotone clock, recorded triggers of each job are occurrences and strictly increase, so none runs twice. |
| `Scheduler.NoOccurrenceOverdue` | internal/agent/backupsched/scheduler.go:134-146 | Whenever the loop looks, every occurrence older than the jitter, counted from the boot if that was later, is recorded or was passed over for a later one. |
| `Scheduler.BootExactly` | internal/agent/backupsched/scheduler.go:92-118 | A boot keeps the stored triggers, or starts both from this very second, triggers nothing and arms both jobs. |
| `Scheduler.BackupExactly` | internal/agent/backupsched/scheduler.go:134-140 | A look at the backup job triggers exactly when its armed time has come; it records the latest occurrence, in the file as well, arms the first one to come and leaves the check job as it is. |
| `Scheduler.CheckExactly` | internal/agent/backupsched/scheduler.go:141-146 | A look at the check job does likewise. |
| `Scheduler.EveryOccurrenceIsTriggered` | internal/agent/backupsched/scheduler.go:92-148 | Over any loops, crashes and restarts: the stored trigger is the last one that was triggered; nothing is triggered from before the stored state, or from before the second of the first boot; and whenever the loop looks at a job, every later occurrence older than the jitter, counted from the boot if it fell before it, was triggered or passed over for a later one that was. |
| `Scheduler.Scheduler.Start` | internal/agent/backupsched/scheduler.go:106-118 | The state is loaded or created, and both jobs are armed, as specified. |
| `Scheduler.Scheduler.Turn` | internal/agent/backupsched/scheduler.go:134-146 | One turn triggers, saves and re-arms exactly what is due. |
| `Scheduler.Scheduler.Soonest` | internal/agent/backupsched/scheduler.go:190-203 | The earlier of the two armed times, if any is armed. |
| `Scheduler.Scheduler.SleepFor` | internal/agent/backupsched/scheduler.go:175-188 | The loop never sleeps past an armed time nor longer than a minute, and does not sleep exactly when something is due. |
| `Status.Carry` | internal/agent/backup/status.go:198-228 | The field-by-field carry-over computes the specified record and keeps the name. |
| `Status.MergeStatus` | internal/agent/backup/status.go:190-238 | The loops compute the specified merge: updated records in order, then the untouched ones. |
| `Status.MergeByName` | internal/agent/backup/status.go:190-238 | Name by name: an updated repository takes over what it must from its old record, every other record is unchanged, and no name is lost or invented. |
| `Status.RemoveRepoStatus` | internal/agent/backup/status.go:260-269 | Exactly the records with removed names go; the rest keep their order. |
| `Status.RemoveManagedRepoStatuses` | internal/agent/backup/managed.go:163-176 | The retired names go, and when nothing is written the file already is that result. |
| `Status.WithoutUnconfiguredRepos` | internal/agent/backup/status.go:240-258 | Exactly the names with a restic record that is not configured go. |
| `Status.ApplyCheckResult` | internal/agent/backup/check.go:413-437 | The loop computes the specified file. |
| `Status.CheckedByName` | internal/agent/backup/check.go:413-437 | A check sets the verdict of its repository, adding a record if there is none, and changes no other record. |
| `Status.Reconcile` | internal/agent/backup/init.go:99-128 | Missing repositories are added and unconfigured ones dropped, and when nothing is written the file already is that result. |
| `Status.RecordTunnelEnrollmentFailure` | internal/agent/backup/status.go:89-124 | The result is the merge of a failed update for every tunnel repository, without touching a success or a verdict. |
| `Status.EnrolmentFailureOnlyMarks` | internal/agent/backup/status.go:89-124 | A failed enrolment marks the record as failed now and leaves everything else it says as it is, if and only if the old record has no excludes without paths and no statistics remarks without statistics. |
| `Status.ApplyKeeps` | internal/agent/backup/run.go:170-201 | One run, enrolment failure, check, reconciliation or retirement of others replaces the last success only by its own success and the verdict only by its own verdict. |
| `Status.HistoryIsLatest` | internal/agent/backup/status.go:190-269 | Over every sequence of these that keeps the repository configured, its last success is that of the latest successful backup and its verdict that of the latest check. |
| `Status.SuccessNeverGoesBack` | internal/agent/backup/status.go:190-238 | With a clock that never goes back, a recorded success never vanishes and never moves back. |
| `Status.VerdictSurvives` | internal/agent/backup/status.go:198-202 | Nothing but a check of the repository itself touches its verdict. |
| `Status.NamesStayUnique` | internal/agent/backup/status.go:190-269 | No repository ever gets a second record. |
| `StatusRecords.RecordsAreIndependent` | internal/agent/backup/status.go:190-269 | Every operation changes the record of every repository as a function of that record alone, written out field by field; what else the file holds makes no difference. |
| `StatusRecords.HistoriesAreIndependent` | internal/agent/backup/status.go:190-269 | And so does every sequence of operations. |
| `StatusRecords.InventoryIsLatest` | internal/agent/backup/status.go:214-227 | Over every sequence of operations that keeps the repository configured: its paths and excludes are those of the latest report that named paths, and its path statistics those of the latest report that had any or succeeded without. |
| `StatusRecords.MergeOrder` | internal/agent/backup/status.go:195-237 | A merge writes the reports first, in their order, and then the other records in the order they had. |
| `StatusRecords.FailuresExactly` | internal/agent/backup/status.go:89-124 | A failed enrolment reports on exactly the repositories that use a tunnel, with its error and time. |
| `StatusRaces.RecordsExactly` | internal/agent/backup/status.go:98-123 | Over every interleaving of reads and writes by processes with and without the run lock: the file has the latest stored success and verdict at all times if and only if no failed enrolment, reconciliation or retirement of other repositories writes what it read before one of them was stored. |
| `Status.StaleWriteLosesSuccess` | internal/agent/backup/status.go:98-123 | For every file, repository and time, and every operation without the run lock that keeps the repository: its write, if the read came before a backup stored its success, puts back what the file said before. |
| `Version.CompareCore` | pkg/version/version.go:34-63 | The loop computes the order of the cores, missing and unreadable segments counting as 0. |
| `Version.ComparePrerelease` | pkg/version/version.go:65-112 | The loop computes the order of the prereleases, no prerelease being the highest. |
| `Version.IsNewer` | pkg/version/version.go:10-32 | True exactly if the specified order puts the first string above the second. |
| `Version.StrictWeakOrder` | pkg/version/version.go:10-112 | On all strings, IsNewer is irreflexive, asymmetric and transitive, and so is being of equal rank. |
| `Version.UpgradesNeverCycle` | pkg/version/version.go:10-112 | The end of any chain of accepted upgrades is newer than its start, and never equal to it. |
| `Version.AgreesWithSemVer` | pkg/version/version.go:10-112 | On valid versions whose numbers fit in an int and whose identifiers are not a hyphen followed by digits, the order is the precedence of section 11 of SemVer 2.0.0. |
| `Version.NewerIsLower` | pkg/version/version.go:10-112 | On such versions, one is newer exactly if section 11 puts the other lower: by major, minor and patch number, then with a prerelease below without, then by the first identifiers that differ, numbers by value and below texts, texts by their first differing character, and the shorter list lower. |
| `Version.AgreesExactly` | pkg/version/version.go:81-104 | A valid version is ordered by that precedence against every such version if and only if it is one itself. |
| `Version.Spoiled` | pkg/version/version.go:54-63 | For every other valid version, a valid version of that kind against which it is ordered wrongly. |
| `Version.WrittenSplits` | pkg/version/version.go:23-32 | A valid version is taken apart into exactly its core and its prerelease, whatever its build metadata. |
| `Version.CoreDecides` | pkg/version/version.go:34-63 | Of two strings without prerelease, build and leading v, with any segments, the first is newer exactly if the first segment whose count differs counts more in it; a segment that is missing, or no number of the range, counts 0. |
| `Version.LeadingV` | pkg/version/version.go:23-24 | A leading v makes no difference on either side. |
| `Version.BuildIgnored` | pkg/version/version.go:25-27 | Nor does anything from a plus sign on. |

## Left out

- RunLock.MutualExclusion: holds only while no create or link lands in a reclaim window, its carrier's calls succeed and no live owner is misjudged, because the code does not exclude these; `RunLock.ExclusionExactly` gives the exact limit over all runs.
- Gateway.QuotaConservation: carries a term for bytes lost by a lock delete, because the code can lose them; bodies have exactly their declared length and a lock's name fixes its size.
- BanManager.KernelSetsAreSafe: allows the one second that the kernel's minimum element lifetime takes, because the code does; `BanLinger.LingersExactly` gives the exact condition.
- Registry.UsageNeverNegative: needs non-negative measurements, because the registry stores whatever it is given.
- Run lock: a token is written in one step, and partial writes, process-id namespaces and clocks before 1970 are not modelled; file ages are a free choice.
- Gateway: the S3 store, partial reads, crashes of the whole node, directory synchronisation, the sweep of stale upload files and the listing of objects. One ready target with a fixed quota is followed; targets that are revoked, replaced or measured again during an upload are covered by the registry alone.
- SHA-256 is taken as injective: a digest stands for the bytes it was computed from.
- BanDeployed.EveryBanIsDeployed: exempts the bans that began with more than 10000 addresses banned, because the code does not deploy these.
- StatusRecords.InventoryIsLatest: needs reports that name their paths, excludes and statistics together, as those of the code do; `Status.EnrolmentFailureOnlyMarks` says what happens to a record that does not.
- IP bans: nftables errors, restarts of the agent within a run, zones and IPv4-mapped addresses, the counting window that only feeds metrics, how many events one report carries, and the journal source. Event identifiers are taken as unique. An event-loop step reads the clock once.
- Log tail: sshd patterns and syslog dates; the model starts at lines with their times. Detecting rotation by inode and size is not modelled, only re-reading.
- Series: the read of the archive itself, SQL, aggregation of values, rendering, and the archive's own bookkeeping. The origin of time_bucket is that of TimescaleDB's documentation.
- Browse: HTTP handlers, request validation and random identifiers, which are taken as new.
- Alerts: failing writes, channel delivery, floating-point NaN, and the measuring queries, whose answers are inputs. The hosts of a rule are distinct, as rows with a primary key are. A round reads the clock once; the lemmas about histories allow any times. The stored value's rounding by the database is not modelled.
- Scheduler: time zones with changing offsets, unreadable or unwritable state files, the parsing of HH:MM, and what the jobs themselves do.
- Status: unreadable files, JSON's dropping of empty lists, the tool runs that produce the updates, and how the retired repositories are found.
- Version: a platform whose int has 32 bits.
- Machine integers are unbounded here, except where the version comparison depends on their range.
- HTTP routing, authentication, cryptography, WireGuard, metric collectors, provisioning, installers and the web interface hold no invariant of this kind.
