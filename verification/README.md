# CertKeeper: a verified model

CertKeeper issues certificates, keeps every issued generation in a versioned directory tree, hands out work
through leased jobs, and lets clients deploy a generation atomically. This project models those parts in Dafny
and proves what they promise, at every step, over every fault plan, and over whole histories.

Nine parts, each a few modules:

- **Certificate store** (`FileTree`, `CertRuns`, `CertSafety`, `CertRemoval`, `PublishSafety`, `CertMaintenance`,
  `CertGc`, `CertBoundaries`, `CertLeftovers`, `CertHistory`, `CertDamage`, `CertStore`). The file tree of one domain
  is a value; Publish, Abort, garbage collection and the migration of old text pointers are runs of single file
  operations. A run remembers every tree it passed through, because a crash leaves one of them, and a set of faults
  names the operations that fail. `CertStore.Store` is the object that performs these runs.
- **Lease protocol** (`Leases`, `LeaseProtocol`, `LeaseEffects`, `LeaseSafety`, `LeaseStore`, `Backoff`). Any number
  of workers, every store call one atomic step, answers that get lost, against the in-memory store that defines the
  contract.
- **Job table** (`Jobs`, `JobRuns`, `JobEffects`, `JobTable`). Every SQL statement is one guarded step; `Claim` is two.
- **Generation table** (`Generations`, `GenerationEffects`, `GenerationTable`). Transactions over rows, with
  the unique indexes of the schema.
- **Job execution and recovery** (`ServiceRuns`, `ServiceSafety`, `ServiceEndings`, `ServiceOutcomes`, `ServiceDrift`,
  `ServiceCrash`, `ServiceStore`). One claimed job drives the certificate store and both tables; any call may fail.
- **Client deployment** (`DeployRuns`, `DeploySafety`, `DeployEndings`, `DeployHistory`, `DeployStore`).
- **Secrets** (`Keys`, `KeyStore`: key migration; `SecretScan`: residue scan; `Redaction`, `Replacement`:
  output redaction).
- **Replay protection** (`Nonces`).
- **Texts** (`UrlEscape`, `UrlPaths`: version 2 paths; `LabelText`, `Metrics`, `MetricRegistry`: metric series).

The pattern is the same throughout: functions describe the runs, lemmas prove the properties of the functions, and
the methods of a class, which change their fields as the Go code does, are proved equal to the functions. What a step
does is stated a second time on the fields that it changes, without the functions (`LeaseEffects`, `JobEffects`,
`GenerationEffects`, `ServiceEndings`, `DeployEndings`, `CertLeftovers`).

Where the code does not do what one would expect of it, the code is kept and the exact condition is proved:

- A publish drives the store through a tree whose `current` does not load exactly if its release is in place, the
  commit fails, `current` names that release at clean-up, and clean-up removes some of it
  (`PublishSafety.PublishIsSafe`, predicate `Breaks`). That needs a failed sync whose restore fails too
  (`CertBoundaries.StuckIsSoundIff`), or a random name that is the one an old text pointer uses in `generations/`,
  because new names are checked against `releases/` only (`CertBoundaries.ClashIff`).
- A migration loses the release exactly if it was moved out of `generations/`, the sync after the switch fails, the
  old text cannot be put back, and the release is moved back (`CertMaintenance.MigrationIsInvisible`).
- A crash can leave a release that counts as a generation and cannot be read, exactly in an operation that removes
  a complete one (an Abort its own, a failing publish the one it made, a collection one that no rule keeps) and in
  which the removal of some entry goes through (`CertDamage.DamagedByIff`). No operation ever removes or repairs
  such a release, no later publish succeeds, and the certificate that readers get never changes again
  (`DamageIsForever`, `DamageFreezesCurrent`).
- A renewal is accepted by the reading it carries. A domain has two unexpired leases at some time of a run exactly
  if a renewal is accepted while another job of the domain is leased (`LeaseSafety.AlwaysExclusiveIff`,
  `LateRenewalSharesDomain`).
- A job comes to a stop for good exactly if it is queued with its attempts used up. Setting it to `queued` by hand,
  or creating it so, is the only way there, and another manual change or deletion the only way out
  (`JobRuns.ComesToActIff`, `StrandedIff`, `StrandedStays`).
- A generation row is numbered by attempts and then given the certificate store's revision, in a column with a
  unique index. In runs in which nothing but the issuer fails, from a new domain on, exactly those attempts are
  recorded that come before the first failed issuance (`ServiceDrift.RecordsIff`, `NewDomainRecordsIff`).
- A run can leave the stores at odds with no row that recovery would look at. Exactly when is proved for every run
  and all faults (`ServiceCrash.RunLossIff`): a publish that succeeds and is recorded in two updates, with a crash
  between them; a published generation that cannot be read back or recorded, once its row is marked failed; a
  failed publish that changes what readers get; and recovery that cannot read the files, or whose last row is cut
  short in the same way. No recovery repairs it (`NoRecoveryRepairs`).
- A certificate that is not due ends a run before recovery (`ServiceSafety.NotDueSkipsRecovery`).
- An acceptable generation can be deployed, on some fault plan, exactly if its release is not already in place
  without being current (`DeployHistory.DeployableIff`). Every deployment that builds its release passes through
  such a state, and one that does not end current stays in it (`LeavesBehindIff`), for good (`LeftBehindForever`).
- A failed reload is reported as retryable, but deploying that generation again skips the reload and reports it done
  (`DeployHistory.ReloadIsNotRetried`).
- After a successful Open a plaintext token secret is left exactly where it stood beside a ciphertext that the active
  key already opened (`Keys.OpenLeaves`).
- The default nonce TTL, 300 seconds, is too short for the default window of 300 seconds: requests dated ahead of the
  server can be replayed (`Nonces.ReplaySafeIff`, `DefaultsReplay`).
- The backoff is one nanosecond above the capped doubling in one case (`Backoff.DelayIsCappedIff`).
- A secret can survive redaction, for some output and some second secret, exactly if it begins or ends with `*` or
  contains `***`: then masks can spell it (`Redaction.RedactionIsSureIff`).

## Model

| member | source | states |
|---|---|---|
| FileTree.LoadGeneration | internal/certstore/certstore.go:910-1013 | What a generation directory that is accepted looks like: exactly the fixed files, a manifest for this generation and domain, every file as listed, the leaf certificate as described |
| FileTree.FullLoadsIff | internal/certstore/certstore.go:910-1013 | Exactly which directories with a full manifest load, read off manifest, files and certificate, and that they load as that manifest |
| FileTree.ListLoadsIff | internal/certstore/certstore.go:910-975 | Exactly which directories of an old store load, whose manifest is only the list of files: as revision 1, with serial, fingerprint and names taken from the certificate |
| FileTree.LoadedFilesAre | internal/certstore/certstore.go:910-953 | The files of a generation that loads are those of its directory, each under its own name |
| FileTree.ByNameReadsIff | internal/certstore/certstore.go:612-645 | When a generation reads by name, as what, from `releases/` before `generations/`, and when it counts as not there |
| FileTree.CurrentReadsIff | internal/certstore/certstore.go:1154-1243 | When `current` reads, as what: a link leads into `releases/` only, an old text also into `generations/`; and when it counts as not there |
| PublishSafety.PublishIsSafe | internal/certstore/certstore.go:168-243 | For every fault plan: the exact condition under which every tree a publish passes through, at any crash point, has `current` absent or loading and reads as before or as the new, newest generation; when it succeeds; where an error leaves `current`, and that it leaves other releases alone |
| PublishSafety.ReadStagingIs | internal/certstore/certstore.go:515-557 | Exactly which staging directories are accepted, and that the files taken from them are their own data under their own names, with the clock for a missing time.log |
| PublishSafety.PickFreshIs | internal/certstore/certstore.go:594-610 | The name drawn is the first of eight drawn tokens whose name is free in `releases/`, none being invalid before it |
| PublishSafety.NextRevisionIff | internal/certstore/certstore.go:816-856 | There is a next revision exactly if every entry of both directories is passed over or loads and none has the greatest revision |
| PublishSafety.NextRevisionIsLeast | internal/certstore/certstore.go:816-856 | It is the least positive number above the revisions of all generations in both directories |
| PublishSafety.StageableIff | internal/certstore/certstore.go:168-230 | When a release can be built, on staging directory, drawn tokens, both directories and `current` alone |
| PublishSafety.PublishSucceedsIff | internal/certstore/certstore.go:168-243 | Publish succeeds exactly when its inputs are acceptable, as StageableIff spells out on the staging directory, the temporary link is free, and none of the named operations fails |
| PublishSafety.PublishDelivers | internal/certstore/certstore.go:168-243 | After success the tree differs only in a fresh release and in `current`, which names it; every file reads back as it lay in the staging directory, with the next revision and what the certificate says |
| PublishSafety.CommitResult | internal/certstore/certstore.go:231-242 | The second half of a publish: when it succeeds, where `current` ends up when it does not, and the exact condition under which every step is safe |
| CertSafety.WriteCurrentResult | internal/certstore/certstore.go:1263-1297 | Where `current` points after each way writeCurrent can end, and that nothing but `current` and temporary pointers changes |
| CertSafety.PutBackResult | internal/certstore/certstore.go:1335-1352 | The old pointer, link or text, is back exactly if the restore's own steps go through |
| CertSafety.NextRevisionExceeds | internal/certstore/certstore.go:816-856 | The revision picked is positive, fits 64 bits and exceeds that of every generation that can be read |
| CertSafety.BuiltLoads | internal/certstore/certstore.go:783-814 | What Publish writes, loadGeneration accepts and reads back unchanged |
| CertBoundaries.StuckIsSoundIff | internal/certstore/certstore.go:1263-1352 | When the sync after the switch fails and the old pointer cannot be put back, `current` names the new release, and ends loading exactly if clean-up removes nothing of it |
| CertRemoval.PartialReleaseUnreadable | internal/certstore/certstore.go:910-953 | A release that has lost any entry no longer loads |
| CertRemoval.RemoveAllResult | internal/certstore/certstore.go:231-242 | A removal succeeds exactly if every entry and then the directory can be removed; otherwise exactly the removable entries are gone |
| CertDamage.DamagedByIff | internal/certstore/certstore.go:168-513 | For each operation, any faults and any release that is not damaged: some crash point leaves it damaged exactly if the operation removes it and the removal of some entry goes through; a migration never does |
| CertDamage.PublishDamagesIff | internal/certstore/certstore.go:231-242 | A publish damages exactly the release it made, when it is in place, the commit fails and clean-up removes some entry |
| CertDamage.CollectDamagesIff | internal/certstore/certstore.go:452-464 | A collection damages exactly the candidates that no rule keeps and of which some entry can be removed |
| CertDamage.BlockedPublish | internal/certstore/certstore.go:816-856 | A damaged release makes every publish fail, before it touches anything but its temporary directory |
| CertDamage.DamageStays | internal/certstore/certstore.go:168-513 | No step of any publish, abort, collection or migration, whatever fails in it, changes a damaged release |
| CertDamage.DamageIsForever | internal/certstore/certstore.go:168-513 | Over any course of operations, crashes and faults a damaged release stays as it is, and no publish into any of these trees succeeds |
| CertDamage.DamageFreezesCurrent | internal/certstore/certstore.go:168-513 | In every history of operations that do not break or lose a release, from the first damage on, readers of `current` get the same generation for good |
| CertBoundaries.ClashIff | internal/certstore/certstore.go:594-610 | Over all fault plans that leave the restore possible, a publish is safe exactly if the name drawn is not the one an old text pointer uses, or clean-up has nothing to remove |
| CertBoundaries.FailureReads | internal/certstore/certstore.go:231-242 | What readers of `current` get after every publish that fails: the same as before unless `current` names the release at clean-up; then the new release, the old one, or nothing that loads, by how much of it was removed |
| CertLeftovers.WriteCurrentLeaves | internal/certstore/certstore.go:1263-1352 | Exactly which temporary pointers every way of ending writeCurrent leaves |
| CertLeftovers.UnstagedLeaves | internal/certstore/certstore.go:189-230 | A publish that does not get its release into place leaves the whole tree as it was, unless its temporary directory cannot be removed |
| CertLeftovers.StagedLeaves | internal/certstore/certstore.go:231-242 | A publish that fails later removes its release exactly if every entry and the directory can be removed, and leaves all else but temporary pointers and `current` as it was |
| CertMaintenance.AbortIsSafe | internal/certstore/certstore.go:481-513 | Abort never touches the current generation or any other release, at any crash point; success means the release is gone |
| CertMaintenance.AbortSucceedsIff | internal/certstore/certstore.go:481-513 | Exactly when an abort succeeds, on the tree and the faults |
| CertMaintenance.MigrationIsInvisible | internal/certstore/certstore.go:1154-1243 | For every fault plan: readers through `current` and by name get the same answers at every crash point of the migration of a text pointer exactly if it does not lose the release, and otherwise its end is unsound; where it leaves the pointer |
| CertMaintenance.MigrationSucceedsIff | internal/certstore/certstore.go:1154-1243 | A migration succeeds exactly if the pointer can be read, `current` reads, and, for a text pointer, the release arrives in `releases/`, the switch goes through and the sync after it too |
| CertMaintenance.MigrationIsIdempotent | internal/certstore/certstore.go:1154-1243 | After a migration a second one changes nothing, and succeeds exactly if the pointer can be read |
| CertMaintenance.MigrationAdvances | internal/certstore/certstore.go:1154-1243 | Every tree a migration passes through is sound and reads as before, exactly if it does not lose the release |
| CertGc.CollectIsExact | internal/certstore/certstore.go:373-473 | Removed is exactly the set of unprotected candidates whose removal works, Failed the entries that are no readable directories and the unprotected candidates that stay; every candidate is in exactly one of Removed and Retained; current, protected and the KeepRecent greatest keep their directories |
| CertGc.CollectSucceedsIff | internal/certstore/certstore.go:373-473 | When a collection succeeds, and that one that fails its checks does nothing and reports nothing |
| CertGc.CollectReports | internal/certstore/certstore.go:373-473 | Entry by entry: Retained are the named directories that were not removed; Failed are symbolic links, named entries that do not load, and generations given up but not removed |
| CertGc.KeepsIff | internal/certstore/certstore.go:405-456 | The retention rule on revisions and names: the current generation, those protected, and those that fewer than KeepRecent readable generations exceed |
| CertGc.TriedIsNotKept | internal/certstore/certstore.go:452-464 | The walk tries exactly the candidates that no rule keeps |
| CertGc.RankIsIndex | internal/certstore/certstore.go:446-456 | A candidate's place in the list is the number of candidates with greater (revision, id) |
| CertGc.RankingIsUnique | internal/certstore/certstore.go:446-451 | The ranking, and so the outcome, does not depend on the order in which the directory is listed |
| CertHistory.HistoryIsSound | internal/certstore/certstore.go:168-513 | After any history of publishes, aborts, collections and migrations that do not break or lose a release, each cut short anywhere, `current` is absent or loads |
| CertHistory.RevisionsIncrease | internal/certstore/certstore.go:168-513 | Over any history of operations that do not break or lose a release, once there is a current generation there always is one, and every later one is the same or has a strictly greater revision |
| CertHistory.CoveredIff | internal/certstore/certstore.go:168-513 | The operations that histories allow are exactly those in which no crash can leave a tree it must not |
| CertHistory.OneFaultIsCovered | internal/certstore/certstore.go:1263-1352 | A single failing operation never breaks a publish or loses a release in a migration, unless the drawn name clashes |
| CertStore.Store.Publish | internal/certstore/certstore.go:168-243 | The method takes exactly the run of Publish: same trees, same result, same generation and manifest |
| CertStore.Store.Commit | internal/certstore/certstore.go:231-242 | The method takes exactly the run of the second half of a publish |
| CertStore.Store.StageRelease | internal/certstore/certstore.go:189-230 | The method takes exactly the run that builds a release and renames it into place |
| CertStore.Store.WriteCurrent | internal/certstore/certstore.go:1263-1297 | The method takes exactly the run of writeCurrent |
| CertStore.Store.RestorePointer | internal/certstore/certstore.go:1335-1352 | The method takes exactly the run of restoreCurrent |
| CertStore.Store.NextRevision | internal/certstore/certstore.go:816-856 | Scanning both directories finds one more than the greatest stored revision, or reports that something cannot be read |
| CertStore.Store.ScanRevisions | internal/certstore/certstore.go:816-856 | The loop finds the greatest revision in one directory, or that an entry is unreadable, in any listing order |
| CertStore.Store.DrawGeneration | internal/certstore/certstore.go:594-610 | At most eight draws, until a valid name is not in use |
| CertStore.Store.Abort | internal/certstore/certstore.go:481-513 | The method takes exactly the run of Abort |
| CertStore.Store.Migrate | internal/certstore/certstore.go:1154-1243 | The method takes exactly the run of the migration |
| CertStore.Store.RankCandidates | internal/certstore/certstore.go:414-451 | Whatever the listing order, the list holds every readable generation once, ranked by (revision, id) |
| CertStore.Store.GarbageCollect | internal/certstore/certstore.go:373-473 | The method takes exactly the run of the collection and returns what it removed, retained and failed on |
| Leases.FirstClaimableIsFirst | internal/scheduler/persistent_test.go:81-96 | ClaimJob takes the earliest created job that is eligible and whose domain is free, and none only if there is none |
| LeaseStore.MemoryStore.CreateJob | internal/scheduler/persistent_test.go:43-67 | Creates a queued job unless the domain and key were used before, and then names the old one |
| LeaseStore.MemoryStore.CheckDomainLeased | internal/scheduler/persistent_test.go:201-211 | True exactly if another job of the domain holds an unexpired lease, in any order of the map |
| LeaseStore.MemoryStore.ClaimJob | internal/scheduler/persistent_test.go:69-96 | The board changes exactly as the claim function says |
| LeaseStore.MemoryStore.RenewLease | internal/scheduler/persistent_test.go:98-119 | Compare-and-swap on running, owner, version and expiry; success raises the version by one |
| LeaseStore.MemoryStore.UpdateJob | internal/scheduler/persistent_test.go:121-139 | Compare-and-swap on running, owner, version and expiry; success settles the job and keeps the version |
| LeaseEffects.CreateEffect | internal/scheduler/persistent_test.go:43-67 | An unused domain and key make one job, queued and untried, listed last; a used pair names its job |
| LeaseEffects.ClaimEffect | internal/scheduler/persistent_test.go:69-96 | Field by field: the first job in order that waits and is due, or whose lease ran out, and whose domain is free, runs for this owner with one attempt and version more; without one nothing changes |
| LeaseEffects.RenewEffect | internal/scheduler/persistent_test.go:98-119 | The holder moves the expiry and raises the version by one, anybody else changes nothing |
| LeaseEffects.UpdateEffect | internal/scheduler/persistent_test.go:121-139 | The holder stores the update and ends the lease, version and attempts kept; anybody else changes nothing |
| LeaseEffects.ClaimingEffect | internal/scheduler/persistent.go:338-363 | What a worker holds after a claim, by whether the call and its answer arrive |
| LeaseEffects.RenewingEffect | internal/scheduler/persistent.go:437-464 | A renewal goes on with the new version exactly if it is accepted and answered; otherwise the execution stops renewing |
| LeaseEffects.FinishingEffect | internal/scheduler/persistent.go:371-497 | Field by field, what the last update does: success stores the result; a failure retries after the delay exactly if attempts are left and it is not permanent, and else is final, with the message; a cancelled worker requeues from now on; the lease is cleared and every other job unchanged |
| LeaseSafety.WorldIsFenced | internal/scheduler/persistent.go:101-111 | In every reachable world, for any clocks and any lost answers, the fencing invariant of executions and events holds |
| LeaseSafety.SettledOnlyByLastClaim | internal/scheduler/persistent.go:371-497 | An update is applied only for an execution after whose claim nobody claimed that job |
| LeaseSafety.VersionsAreUsedOnce | internal/scheduler/persistent.go:101-111 | Lease versions granted for a job strictly increase, and each settles the job at most once |
| LeaseSafety.UpdateAppliesIff | internal/scheduler/persistent.go:371-466 | The last update of an execution is applied exactly if one is sent and arrives, the execution has the job's present version and the lease has not run out; while renewals go well it has that version exactly if nobody claimed the job since; the shared owner name plays no part |
| LeaseSafety.AttemptsCountClaims | internal/scheduler/persistent_test.go:69-96 | A job's attempts are the number of times it was claimed |
| LeaseSafety.BoardIsOrderly | internal/scheduler/persistent_test.go:43-67 | In every reachable world a domain and key name one job and every job is listed once |
| LeaseSafety.CreationIsIdempotent | internal/scheduler/persistent.go:101-105 | A domain and key, once used, name the same single job for good |
| LeaseSafety.AlwaysExclusiveIff | internal/scheduler/persistent.go:101-111 | Over any run, no domain has two unexpired leases at any time exactly if no renewal is accepted while another job of its domain is leased |
| LeaseSafety.OneLeasePerDomain | internal/scheduler/persistent.go:101-111 | When no renewal acts on a reading older than that of a claim before it, no domain ever has two unexpired leases, in whatever order claims come |
| LeaseSafety.OneHolderPerDomain | internal/scheduler/persistent.go:101-111 | When no renewal acts on a reading older than that of a claim before it, at any time at most one execution of a domain still holds its lease |
| LeaseSafety.LateRenewalIff | internal/scheduler/persistent_test.go:98-119 | A renewal keeps the domain exclusive exactly if it is refused, ends in time, or the check that ClaimJob makes would have passed |
| LeaseSafety.LateRenewalSharesDomain | internal/scheduler/persistent_test.go:98-119 | A run in which a late renewal gives a domain two unexpired leases |
| Backoff.ComputeBackoff | internal/scheduler/persistent.go:499-514 | The loop computes the delay function, with no intermediate value beyond the maximum |
| Backoff.DelayIsCappedIff | internal/scheduler/persistent.go:499-514 | The delay is the doubling capped at the maximum, except exactly when the doubling is one short of it, where it is one more |
| Backoff.DelayGrows | internal/scheduler/persistent.go:499-514 | Delays never shrink with attempts and stay between the initial delay and the maximum |
| Jobs.Seconds | internal/store/workflows.go:949-955 | A duration in whole seconds, rounded up |
| Jobs.PrecedesIsOrder | internal/store/workflows.go:282 | The claim order is a strict total order on jobs; which one, `JobEffects.HeadIsEarliest` says on the columns |
| Common.LexLessIff | internal/store/workflows.go:282 | The order of identifiers is decided at the first place where they differ; a proper beginning comes first |
| JobEffects.HeadIsEarliest | internal/store/workflows.go:276-283 | The next job has, of all that wait, the least next_attempt_at, or created_at where that is null, among those the least created_at, and among those the least id |
| JobEffects.ExpireEffect | internal/store/workflows.go:264-275 | Exactly the running jobs without attempts left whose lease has run out fail, as exhausted |
| JobEffects.ClaimEffect | internal/store/workflows.go:276-288 | Column by column, the row that Claim updates |
| JobEffects.RenewEffect | internal/store/workflows.go:296-306 | The holder moves the deadline and nothing else; anybody else is refused |
| JobEffects.ReleaseEffect | internal/store/workflows.go:314-329 | The holder gives the job back for now, or fails it as exhausted when no attempts are left |
| JobEffects.RetryEffect | internal/store/workflows.go:371-386 | The holder gives the job back for the given time, which must not be past, or fails it when no attempts are left, with the error code |
| JobEffects.SetEffect | internal/store/workflows.go:389-417 | A change by hand, column by column: only an end clears lease and time |
| JobEffects.CreateEffect | internal/store/workflows.go:113-171 | A valid job is inserted as given, three attempts by default, exactly if its key and identifier are unused; a used key names its job |
| JobRuns.AttemptsCountClaims | internal/store/workflows.go:258-417 | Under every job operation short of deletion, manual status changes included, attempts are the initial ones plus the number of claims, and never exceed the maximum |
| JobRuns.OrdinaryRunsAreWellFormed | internal/store/workflows.go:258-386 | For jobs created queued and untried and driven by workers: queued means attempts left and no lease, running means an owner and a deadline |
| JobRuns.NothingIsStranded | internal/store/workflows.go:258-386 | From some time on every job that has not ended is due, or is failed by the next Claim: none is stranded |
| JobRuns.LeaseProtects | internal/store/workflows.go:258-386 | Until its lease runs out a job is changed by nobody but its owner, a manual status change or its deletion, even between the two statements of a Claim |
| JobRuns.TerminalStays | internal/store/workflows.go:258-386 | Lease operations and claims never leave a terminal status |
| JobRuns.ComesToActIff | internal/store/workflows.go:258-435 | In every run, manual status changes included, a job that has not ended is from some time on due or about to be failed, exactly if it is not queued with its attempts used up |
| JobRuns.StrandedIff | internal/store/workflows.go:389-417 | In every run a job is stranded at some time exactly if it is set to queued by hand, or created so, with its attempts used up |
| JobRuns.StrandedStays | internal/store/workflows.go:258-435 | A stranded job stays exactly as it is until its own status is changed by hand or it is deleted |
| JobTable.ClaimTakesListedHead | internal/store/workflows.go:258-350 | Claim takes exactly the head of what ListRecoverable shows at the same time, and nothing exactly if that is empty |
| JobTable.ListingIsEarliest | internal/store/workflows.go:337-350 | Each listed job is the earliest, by time, creation and id, of those that wait and are not listed before it, and a list that is not full holds all that wait |
| JobTable.ExpireKeepsHead | internal/store/workflows.go:264-285 | Failing exhausted jobs changes neither which job is next nor whether there is one |
| JobTable.HeadIsUnique | internal/store/workflows.go:258-288 | The next job is unique |
| JobTable.Bounded | internal/store/workflows.go:983-988 | The list limit asked for, if it is between 1 and 500, and 100 otherwise |
| JobTable.Store.Claim | internal/store/workflows.go:258-288 | Refuses a blank owner or no duration; otherwise fails exhausted jobs and takes the earliest job that waits, by time, creation and id, with a lease of the duration in whole seconds |
| JobTable.Store.FindNext | internal/store/workflows.go:276-283 | The earliest waiting job, by time, creation and id, outside a given list, or that there is none |
| JobTable.Store.ListRecoverable | internal/store/workflows.go:337-350 | The earliest waiting jobs in order of time, creation and id, none left out unless the list is full |
| JobTable.Store.RenewLease | internal/store/workflows.go:296-306 | Extends the lease exactly if the caller holds it, and refuses blank arguments |
| JobTable.Store.ReleaseLease | internal/store/workflows.go:314-329 | Requeues the caller's job, or fails it when its attempts are used up |
| JobTable.Store.RetryAt | internal/store/workflows.go:371-386 | Records the error and requeues for the given time, or fails the job; refuses a time in the past |
| JobTable.Store.UpdateStatus | internal/store/workflows.go:389-417 | Sets the status whoever asks; only a terminal status clears the lease |
| JobTable.Store.CreateJob | internal/store/workflows.go:113-171 | Inserts a valid job, or returns the one with the same domain, operation and key; the unique index is kept |
| JobTable.Store.DeleteJob | internal/store/workflows.go:425-434 | Removes exactly the job, or reports that there is none |
| Generations.CreateKeepsValid | internal/store/workflows.go:442-515 | Creating a row keeps the indexes and at most one, issued, current row per domain |
| Generations.SetStatusKeepsValid | internal/store/workflows.go:575-607 | So does a status update |
| Generations.SetArtifactKeepsValid | internal/store/workflows.go:610-643 | So does an artifact update |
| Generations.DeleteKeepsValid | internal/store/workflows.go:655-664 | So does a deletion |
| Generations.PutDecidesCurrent | internal/store/workflows.go:488-600 | A stored row marked current becomes its domain's only current row; one that is not leaves the others as they were |
| Generations.ArtifactAcceptedIff | internal/store/workflows.go:610-643 | The artifact of an issued row is accepted exactly if its values fit the columns and no other row of the domain has that revision |
| Generations.RecordMakesCurrent | internal/store/workflows.go:575-643 | After the status and artifact updates the row is the one current row of its domain and holds exactly the given values |
| GenerationEffects.CreateEffect | internal/store/workflows.go:442-515 | When a row is stored and as what: numbered one above the greatest generation, which is its revision too unless it brings its own, under the next id; a current one takes the mark from the rest of its domain |
| GenerationEffects.SetStatusEffect | internal/store/workflows.go:575-607 | Column by column: status and reference as given, current exactly if issued with a reference; other rows only lose the mark |
| GenerationEffects.SetArtifactEffect | internal/store/workflows.go:610-643 | When an artifact is accepted, digests as 64 lower-case hexadecimal digits included, and what is stored |
| GenerationEffects.DeleteEffect | internal/store/workflows.go:655-664 | Deleting removes the row and nothing else |
| GenerationTable.OneCurrentPerDomain | internal/store/workflows.go:442-664 | After any history of creations, updates and deletions a domain has at most one current row, and it is issued |
| GenerationTable.Store.MaxGeneration | internal/store/workflows.go:464-468 | The greatest generation of a domain, or 0 |
| GenerationTable.Store.CreateGeneration | internal/store/workflows.go:442-515 | The transaction as a whole: numbering, checks, index clashes and the current flag |
| GenerationTable.Store.UpdateStatus | internal/store/workflows.go:575-607 | The transaction as a whole: an issued row with a reference becomes current |
| GenerationTable.Store.UpdateArtifact | internal/store/workflows.go:610-643 | The transaction as a whole, refused as a whole when the revision is taken |
| GenerationTable.Store.DeleteGeneration | internal/store/workflows.go:655-664 | Removes exactly the row |
| ServiceSafety.SuccessAgrees | internal/service/v2.go:77-170 | Whatever fails on the way, a run that ends by publishing or by recovery leaves exactly one current row, and it names the certificate store's current generation with equal revision, serial, fingerprint and digest |
| ServiceSafety.RecoveryResult | internal/service/v2.go:765-817 | Recovery never touches the files; true finalises one publishing row in agreement with the store, false leaves no publishing row whose update went through |
| ServiceSafety.RecoveryProgresses | internal/service/v2.go:765-817 | Recovery that returns true strictly lowers the number of publishing rows; false leaves none if row updates succeed |
| ServiceSafety.EveryCrashIsGood | internal/service/v2.go:77-193 | Every state a crash can leave satisfies the invariants of both stores, unless the publish breaks, so that the next run can start from it |
| ServiceSafety.NotDueSkipsRecovery | internal/service/v2.go:99-103 | A run ends early exactly when a readable current certificate is not due and nothing is forced, and then leaves all rows as they were |
| ServiceSafety.FinalizeSucceedsIff | internal/service/v2.go:797-813 | Recording a generation succeeds exactly if no call fails, the values fit the columns and the revision is free |
| ServiceSafety.PublishRowEnds | internal/service/v2.go:140-169 | Success is reported only after publishing, reading the manifest back and recording it |
| ServiceEndings.RunEndsJob | internal/service/v2.go:77-193 | How every run ends the job, on its columns, as the last step: succeeded when not due, recovered or published; failed when it stops at recovery; any other failure gives it back for a minute from now while attempts are left, or ends it, or leaves it to whoever holds its lease; no other job changes |
| ServiceOutcomes.RecoveryIs | internal/service/v2.go:765-817 | Recovery decides on the first publishing row whose files can be read; the publishing rows before it, and no others, are marked failed |
| ServiceOutcomes.RunRecoversIff | internal/service/v2.go:77-113 | Exactly when a run ends by recovery, and exactly when it stops there |
| ServiceOutcomes.RunPublishesIff | internal/service/v2.go:77-170 | Exactly when a run publishes: it gets past the checks, no row can take the current release over, a row can be made, the issuer and the publish succeed, and row and job take that down |
| ServiceOutcomes.IssueRowLeaves | internal/service/v2.go:114-193 | What issuing leaves in the generations table: nothing if no row can be made; otherwise the new row, numbered next, and marked failed whenever an error is reported and the database can be written |
| ServiceOutcomes.PublishRowSees | internal/service/v2.go:140-143 | Every tree that a publish passes through is one that a crash of the run can leave, with both tables as before it |
| ServiceCrash.RunLossIff | internal/service/v2.go:77-193 | From any good world that is not lost, a run with any faults passes through a world in which the stores are at odds and no publishing row is left, exactly under the stated conditions on the faults, the publish and the publishing rows |
| ServiceCrash.RecoveryLossIff | internal/service/v2.go:765-817 | The same for recovery: exactly if it clears all publishing rows but the last and then that one too with the stores at odds, or marks the last one issued whose artifact is another |
| ServiceCrash.IssueRowLossIff | internal/service/v2.go:114-169 | The same for issuing from a settled state: exactly if the publish succeeds and its row is marked issued or failed, or fails, misleads readers and its row is marked failed |
| ServiceCrash.EveryPublishingRunLoses | internal/service/v2.go:140-169 | Every run that publishes, with row updates working, passes through such a world |
| ServiceCrash.NoRecoveryRepairs | internal/service/v2.go:765-817 | From a world without publishing rows no run recovers anything: it leaves rows and files as they are, or issues anew |
| ServiceCrash.IssuingConcordsIff | internal/service/v2.go:797-813 | Between the two updates that record a generation the stores are in accord exactly if the row had the right artifact before |
| ServiceDrift.EmptyIsLevel | internal/store/workflows.go:464-472 | In a new domain the number of the next row is the certificate store's next revision |
| ServiceDrift.NewRowAccepted | internal/store/migrations/005_publishing_status.sql:41-42 | A new row is accepted exactly if no row of the domain has its number as revision |
| ServiceDrift.FirstFailureDrifts | internal/service/v2.go:114-164 | While every issuance succeeds the next one is recorded and the numbers stay level; the first failed issuance makes them drift |
| ServiceDrift.DriftStays | internal/service/v2.go:114-164 | Once drifted, no run records a generation, whether its issuer succeeds or not, and the drift remains |
| ServiceDrift.DriftIsPermanent | internal/service/v2.go:77-170 | Over any sequence of later runs the drift remains and none of them succeeds by publishing or recovery |
| ServiceDrift.RecordsIff | internal/service/v2.go:77-170 | Over any clean history from a level world, a run records its generation exactly if it attempts one and every attempt so far has had a certificate issued |
| ServiceDrift.NewDomainRecordsIff | internal/service/v2.go:77-170 | The same for a domain that starts with no files and no rows |
| ServiceDrift.NextRevisionSteps | internal/certstore/certstore.go:816-856 | One more readable release with the next revision moves the next revision up by one |
| ServiceStore.Service.Execute | internal/service/v2.go:77-170 | The method passes through exactly the worlds of the run and ends with its outcome, driving the certificate store object and both tables |
| ServiceStore.Service.RecoverPublishing | internal/service/v2.go:765-817 | The loop over the rows is the recovery function |
| ServiceStore.Service.PublishRow | internal/service/v2.go:140-169 | The method takes exactly the run from publishing to success |
| ServiceStore.Service.FinishFailure | internal/service/v2.go:176-193 | The method marks the row failed and retries or fails the job, ignoring errors as the code does |
| DeploySafety.DeployIsSafe | internal/client/deploy.go:65-195 | At every step, a crash at any of them included, `current` names what it named before, or the new generation once its five files match the manifest and the bundle is valid; releases that existed are unchanged |
| DeploySafety.DeployEnds | internal/client/deploy.go:65-195 | When a deployment succeeds, read off the directory, the offer and the faults; that success and a failed reload keep the new generation, and that a failed verification ends at the old value exactly if the rollback steps work |
| DeployEndings.ReportIs | internal/client/deploy.go:65-206 | The report and error of every deployment, exactly: skipped, succeeded, failed after a failed reload and worth a retry, or failed |
| DeployEndings.AdmittedIff | internal/client/deploy.go:65-118 | The checks before anything is written, on the directory: the release that is current holds exactly the five regular files |
| DeployEndings.FileFitsIff | internal/client/deploy.go:242-285 | A fetched file is accepted exactly if nothing fails for it and its manifest entries have its size and digest |
| DeployEndings.SuccessDelivers | internal/client/deploy.go:65-195 | After success `current` is a link to the release, which holds exactly the five files, each with the size and digest that the manifest gives |
| DeployEndings.UnbuiltLeaves | internal/client/deploy.go:120-162 | A deployment that does not get its release into place leaves the output directory as it was, unless its staging directory cannot be removed |
| DeployEndings.SwitchToLeaves | internal/client/deploy.go:490-511 | Exactly which temporary links every way of replacing `current` leaves |
| DeployEndings.RestoreEnds | internal/client/deploy.go:513-532 | The rollback succeeds exactly if every step of it goes through |
| DeploySafety.BuildsIff | internal/client/deploy.go:120-162 | The release is put in place exactly if the generation has none yet, the five files match, the bundle is valid and none of the named steps fails |
| DeploySafety.SwitchToEnds | internal/client/deploy.go:490-511 | `current` ends at the new link exactly if the rename is reached, even when the sync after it fails |
| DeploySafety.StageReleaseResult | internal/client/deploy.go:120-162 | A release that is put in place holds exactly the five fetched files, matching the manifest; until then only the staging directory changes |
| DeployHistory.HistoryIsSound | internal/client/deploy.go:65-195 | After any sequence of interrupted deployments `current` is absent or names a complete release, and no release ever changes |
| DeployHistory.LeftBehindFails | internal/client/deploy.go:152-156 | Deploying a generation whose release exists without being current fails and leaves `current` alone |
| DeployHistory.LeftBehindForever | internal/client/deploy.go:152-156 | Such a generation never becomes current again |
| DeployHistory.LeavesBehindIff | internal/client/deploy.go:152-188 | A deployment leaves its generation behind at some step exactly if it builds the release, and at its end exactly if the generation is not current then |
| DeployHistory.DeployableIff | internal/client/deploy.go:65-195 | An acceptable offer can be deployed, on some fault plan, exactly if its generation has not been left behind |
| DeployHistory.ReloadIsNotRetried | internal/client/deploy.go:184-188 | After a failed reload, deploying that generation again changes nothing and, if its checks pass, is skipped as reloaded |
| DeployStore.Deployer.Deploy | internal/client/deploy.go:65-195 | The method takes exactly the run of a deployment and returns its report |
| DeployStore.Deployer.StageFiles | internal/client/deploy.go:138-147 | The loop stages the five files in order and stops at the first that fails |
| DeployStore.Deployer.SwitchTo | internal/client/deploy.go:490-511 | The method takes exactly the run of replacing `current` |
| DeployStore.Deployer.Restore | internal/client/deploy.go:513-532 | The method takes exactly the run of the rollback |
| Keys.MigrationIsInvisible | internal/store/crypto.go:205-327 | Readers of tokens and DNS secrets get the same answers from every state a migration passes through, crash and failing statement included |
| Keys.MigrationIsIdempotent | internal/store/crypto.go:205-314 | A second migration issues no statement |
| Keys.MigrateVisits | internal/store/crypto.go:205-314 | An uninterrupted migration changes exactly the records it visits, each once, whatever the order |
| Keys.OpenSucceedsIff | internal/store/store.go:63-77 | Open succeeds exactly on databases whose every ciphertext opens under one of the two keys, an empty one counting only with a plaintext to replace it, unless a statement fails that the migration issues |
| Keys.OpenNeedsNoLegacyKey | internal/store/store.go:63-77 | After a successful Open every non-null ciphertext opens under the active key alone, readers get what they got before, and opening without the old key writes nothing |
| Keys.OpenLeaves | internal/store/crypto.go:205-266 | What a successful Open makes of a token: no plaintext secret is left, except exactly where one stood beside a ciphertext that the active key already opened |
| Keys.OpenLeavesDns | internal/store/crypto.go:267-314 | A DNS secret that only the legacy key opens is sealed anew with the same text; others stay |
| Keys.TokenReadsIff | internal/store/tokens.go:129-152 | What readers of a token get: the plaintext without a ciphertext, else, for version 2 only, what the active or the legacy key opens |
| KeyStore.Store.MigrateLegacyCiphertexts | internal/store/crypto.go:205-314 | The two loops take exactly the migration run and stop at the first failing statement |
| KeyStore.Store.CheckKeys | internal/store/crypto.go:133-165 | Ready exactly if every non-null ciphertext opens under the active key |
| KeyStore.Store.Open | internal/store/store.go:63-77 | Migration, then the check, as one run |
| SecretScan.ScanFile | internal/acme/isolation.go:214-243 | A residue is reported exactly if some canary occurs in what could be read, for every way the reads split it |
| SecretScan.CarryReaches | internal/acme/isolation.go:218-231 | The kept bytes are enough: an occurrence that ends in a new chunk lies within them and the chunk |
| SecretScan.MaxCanaryLength | internal/acme/isolation.go:245-253 | The greatest length of a canary |
| SecretScan.Canaries | internal/acme/isolation.go:154-168 | The distinct non-empty values, for any order of the map |
| SecretScan.ScanTree | internal/acme/isolation.go:170-212 | The walk over a directory tree returns the first verdict that is not clean |
| SecretScan.CleanVouches | internal/acme/isolation.go:170-212 | A clean verdict means that no file below holds a canary and none was left unread but those that are skipped |
| SecretScan.VerdictHasWitness | internal/acme/isolation.go:170-212 | Any other verdict comes from a file that is reached and has it |
| Redaction.RedactAndLimit | internal/acme/runner.go:942-960 | For every order of the secrets the output is within the limit, holds no non-empty secret that masks cannot spell, and if not cut does not break off inside one |
| Redaction.RedactCleans | internal/acme/runner.go:942-954 | No later replacement brings back a secret that masks cannot spell, or the beginning of one at the end |
| Redaction.OccurrenceSurvives | internal/acme/runner.go:947 | A text that masks cannot spell occurs after a replacement only where it occurred before, and the replaced secret nowhere |
| Redaction.SuffixSurvives | internal/acme/runner.go:947 | A text that neither begins with a star nor holds a mask ends the replaced output only if it ended the original |
| Redaction.RedactLeavesClean | internal/acme/runner.go:942-960 | Output in which no secret occurs or is broken off is unchanged |
| Replacement.ReplaceSplits | internal/acme/runner.go:947 | Replacing cuts the text at its leftmost matches, puts a mask for each, and keeps everything between them |
| Redaction.RedactionIsSureIff | internal/acme/runner.go:942-954 | A secret is gone, and not broken off, for every output, every other secrets and every order, exactly if it neither begins nor ends with a star nor contains three in a row |
| Redaction.LimitedBuffer.Write | internal/acme/command.go:99-114 | The buffer holds exactly the first `limit` bytes of everything written and knows whether there was more |
| Redaction.CaptureWrites | internal/acme/command.go:92-114 | The same for any way the writes are split |
| Redaction.CommandOutput | internal/acme/runner.go:586-598 | Capture and redaction together: what execute reports holds no secret that masks cannot spell, nor, if the redacted text fits the limit, the beginning of one that the capture cut short |
| Nonces.NoReplay | internal/api/server.go:246-303 | With a TTL of at least twice the window plus the delay between check and use, no time and nonce are accepted twice in any run |
| Nonces.NoReplayOfPastRequests | internal/api/server.go:246-303 | For requests not dated ahead of the server the window plus the delay is enough |
| Nonces.ShortTtlReplays | internal/api/server.go:260-268 | Any shorter TTL admits a run with a replay |
| Nonces.ShortTtlReplaysPastRequests | internal/api/server.go:260-268 | So does a TTL shorter than the window plus the delay for requests not dated ahead |
| Nonces.ReplaySafeIff | internal/store/logs.go:82-108 | All runs are free of replays exactly if the TTL is at least twice the window plus the delay |
| Nonces.DefaultsReplay | internal/config/config.go:104 | The default settings admit a replay |
| Nonces.NonceStays | internal/store/logs.go:88-108 | A consumed nonce is remembered until more than the TTL has passed, cleaner included |
| Nonces.AcceptedIff | internal/api/server.go:246-303 | In every run, exactly the authentic requests dated within the window are accepted whose nonce was not consumed within the TTL before |
| Nonces.TableRemembers | internal/store/logs.go:82-108 | The table remembers exactly the nonces consumed within the TTL, whatever the cleaner does |
| Nonces.HandleKeepsTimes | cmd/server/main.go:436-454 | The cleaner leaves exactly the nonces not older than twice the TTL, or ten minutes if that is not positive, with their times |
| Nonces.NonceStore.ConsumeNonce | internal/store/logs.go:88-108 | Old nonces are forgotten, then the nonce is inserted unless present |
| Nonces.NonceStore.Verify | internal/api/server.go:246-303 | Accepts exactly the authentic requests within the window whose nonce is unused, and consumes it only then |
| UrlEscape.DecodeEscape | pkg/certproto/path.go:63-68 | Decoding an escaped segment gives it back, whatever follows |
| UrlEscape.EscapeUnreserved | pkg/certproto/path.go:63-68 | Unreserved characters, section 2.3 of RFC 3986, are left alone |
| UrlEscape.EscapeHasNoSlash | pkg/certproto/path.go:58-68 | An escaped segment never adds a path level |
| UrlEscape.EscapeInjective | pkg/certproto/path.go:63-68 | Distinct segments escape differently |
| UrlPaths.BuildURLPath | pkg/certproto/path.go:76-89 | The loop builds the path of escaped segments, or nothing if there is none or one is invalid |
| UrlPaths.BuiltDecodes | pkg/certproto/path.go:76-89 | A built path decodes and splits to its segments |
| UrlPaths.CertPathRoundTrip | internal/api/v2.go:55-85 | Every certificate path that the builders make lies under /api/v2/certs, parses to the same operation, domain, generation and file, and allows POST for reconcile and deployments and GET for the rest |
| UrlPaths.PartsJoined | pkg/certproto/path.go:42-52 | The rest of the path, operation by operation, as the URL templates write it |
| UrlPaths.CertPathsAreDistinct | pkg/certproto/path.go:100-189 | No two operations share a path |
| UrlPaths.ParseIsExact | internal/api/v2.go:55-75 | A path parses to an operation exactly if it lies under the prefix, the operation's fields fill segments, and up to slashes at either end the rest is those segments |
| UrlPaths.JobPathRoundTrip | pkg/certproto/path.go:192-202 | Job paths round-trip and are no certificate paths |
| UrlPaths.DomainIsSegment | pkg/certproto/contract.go:121-142 | A valid domain is a valid path segment that escaping leaves alone |
| LabelText.ThreePassesAreOne | internal/observability/registry.go:406-410 | The three sequential escapes equal one pass over the value |
| LabelText.EscapedDecodes | internal/observability/registry.go:406-410 | The escaped value ends at its closing quote and determines the value |
| LabelText.QuotedDecodes | internal/observability/registry.go:371-380 | A quoted value ends at its closing quote and determines the value |
| Metrics.SameSeriesIff | internal/observability/registry.go:371-380 | Two label sets of one metric share a series exactly if they are equal |
| Metrics.SamePrintIff | internal/observability/registry.go:382-404 | Two label sets print alike exactly if they are equal |
| MetricRegistry.SeriesFold | internal/observability/registry.go:271-296 | After any updates each label set's series holds the fold of its own updates |
| MetricRegistry.CounterNeverFalls | internal/observability/registry.go:271-296 | Under increments a series never falls and never goes away |
| MetricRegistry.Registry.Register | internal/observability/registry.go:251-269 | A metric is created once, with sorted names; naming it again succeeds exactly with the same kind, help and set of names, in any order |
| MetricRegistry.Registry.Normalize | internal/observability/registry.go:317-329 | The names sorted, or a refusal exactly if one is invalid or repeated |
| MetricRegistry.Registry.CheckLabels | internal/observability/registry.go:298-315 | Accepts exactly the labels that the metric declares, without NUL |
| MetricRegistry.Registry.Apply | internal/observability/registry.go:271-296 | Changes exactly the series of these labels, or nothing; an accepted increment of a counter leaves its series and does not lower it |
| MetricRegistry.Registry.BuildKey | internal/observability/registry.go:371-380 | The loop builds the series key |
| MetricRegistry.Registry.PrintLabels | internal/observability/registry.go:382-404 | The loops sort the names and print the labels in that order |

## Left out

- X.509, PEM, SHA-256, JSON and the hex format of digests: functions and predicates of `FileTree.Pki`.
- Authenticated encryption: symbolic, a box opens only under the key and data it was sealed with; key files and their permissions are not modelled.
- fsync and page-cache reordering, permission bits and outside processes: file operations happen in order and atomically under the store's or the deployment's lock; a chmod can fail but changes nothing.
- Directories that are missing rather than empty are treated as empty; surrounding white space of a text pointer and the normalisation of domain names are left out.
- Random names are inputs; a temporary name is one that does not exist yet.
- The branch of the migration in which its target appears meanwhile cannot be reached under the store's lock.
- CertStore.Store.GarbageCollect: returns sets, not the sorted lists, and no error texts.
- LeaseSafety.OneLeasePerDomain: for runs in which renewals act on readings in order; `AlwaysExclusiveIff` says what happens otherwise.
- LeaseVersion is a natural number: its wrap-around after 2^64 grants of one job is not modelled.
- Scanning of candidates, tickers, jitter, summaries and the counters of a worker's cycle: plumbing around the store calls.
- The adapter in cmd/server/main.go that runs the worker over the SQL tables: it drops lease versions; the protocol and the tables are proved separately and neither is claimed to refine the other.
- Bookkeeping columns of the job and generation tables (error text and time, requester, validity, updated_at), foreign keys and deployment reports.
- JobRuns.NothingIsStranded: says that a job becomes due, not that a worker comes to claim it.
- White space: the owner and id checks know ASCII white space and two Latin-1 characters, not all of Unicode.
- ServiceDrift.RecordsIff: for the runs of DriftIsPermanent, below 2^63 attempts.
- ServiceDrift.DriftIsPermanent: for runs in which no call but the issuer fails and whatever is issued can be published; garbage collection and deleted rows are not part of these runs.
- Issuing itself, DNS credentials, audit events and the choice of retryable errors: inputs of `ServiceRuns.Execute`.
- The client's `.client-state.json`, polling and the version 1 paths.
- Signatures, body hashes and token checks of a request: one boolean, decided before the nonce is consumed.
- net.ParseIP is a predicate; strings in URL paths are bytes, those in metrics Unicode characters, so that label values with invalid UTF-8 are left out.
- MetricRegistry.Registry.Apply: values are real numbers; rounding, infinities and NaN are left out, and so are readiness checks and the rest of the Prometheus text.
- Backup and restore, configuration, logging and HTTP transport.
