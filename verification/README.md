# Groundctl control plane: a verified model

Groundctl keeps package repositories for fleets of Debian and Ubuntu hosts. Its control plane is a set of small
state machines over shared database rows, driven at the same time by API handlers, Celery workers, beacon agents
and timed sweeps, with aptly and Redis on the side. This project models those state machines in Dafny and proves
what holds of them over whole runs.

`dafny verify dfyconfig.toml` checks everything.

## How it is put together

* **Jobs and beacon actions.** `JobProtocol` has one function per database commit and runs as sequences of commits;
  resolving an action and finalising its job are separate commits, with the finalise calls still owed kept in a
  multiset. `JobProofs` proves what every interleaving keeps. `JobStore` has the handlers and tasks themselves, row by
  row, each proved to be the commit of the same name, and `JobSteps` says of each commit which rows it changes.
* **Server locks.** `ServerLocks` interleaves any number of jobs one acquire or release at a time, and has the locking
  skeleton as methods over a lock table that other jobs may change between any two calls.
* **Content lifecycle and config serials.** `Lifecycle` is one state machine over repositories, content views,
  versions, environments, assignments, servers, the audit log and aptly. Every handler is one total step; a call to
  aptly takes effect or does not, as the environment chooses. `AptlyServer` says what is relied on aptly for, `Cut` and
  `CutProofs` what a cut asks it to do, `ContentHash` when a cut is needed. The invariants are split by subject
  (`LifecycleCatalog`, `LifecycleSnapshots`, `LifecycleAssignments`, `LifecycleAudit`, `LifecycleFence`), carried over
  every run in `LifecycleRuns`, and read off as results in `LifecycleTheorems`, `LifecyclePublications`,
  `LifecycleSteps` (when each request takes effect, and what it changes then), `LifecycleServers`, `LifecyclePublish`, `LifecycleIdentity` and `LifecycleMirrors`; `LifecycleExamples` has the runs that
  reach the exceptional cases. `ContentStore` has the handlers as methods, each proved to be its step.
* **Promotion path.** `PromotionPath` proves that the table of positions, gaps included, refines a plain list.
* **Two text formats.** `TomlConfig` is the config writer against a reader for the part of TOML it writes. `DsaList`,
  `DsaProofs` and `DsaRoundTrip` are the DSA list parser, its patterns, and its round trip; `Scan` has the string
  operations.

## What turned out not to hold

* An environment or content view whose name holds an underscore can be published once and never promoted again: the
  client addresses aptly with `_` for `/`, aptly lists the prefix with `/`, so the existing publication is not found
  and publishing afresh is refused (`LifecycleTheorems.PromotedAgainIff`). The comment at app/aptly_client.py:42-58
  says such names are fine. Rollback is not affected, and no other pair's publication is ever overwritten.
* A repository update that fails between deleting and re-creating the mirror leaves a repository that can never be
  updated, deleted or synced again (`LifecycleMirrors.NothingHelps`, `LifecycleMirrors.StuckForGood`); nothing else does
  that (`LifecycleMirrors.StuckIff`).
* A content view that is deleted and made again under its name from another distribution cannot be assigned where the
  old one was published: aptly lists the prefix, and has no such distribution to switch
  (`LifecyclePublications.AssignSucceedsIff`, `LifecycleExamples.RemadeViewExample`).
* Unassigning a content view bumps no config serial; `LifecycleServers.FenceIsExact` says what the serial then means.
* A job parked without any dispatched action is closed by nothing but its operator or a restart
  (`JobProofs.ClosableIff`), and a retried one whose last attempt dispatched none only by another report of an action
  that was already resolved (`JobProofs.OnlyAReportMoves`, `JobProofs.RetriedJobExample`).
* When the Library is deleted and its name given to another environment, creating without a prior always fails on the
  name's uniqueness (`PromotionPath.AppendSucceedsIff`).
* The config writer passes DEL through, which TOML v1.0.0 does not allow in a basic string; its comment says that what
  cannot be escaped is stripped (`TomlConfig.ConfigRoundTrip`).
* Environments are hard deleted, although the comment at app/routers/beacon.py:120-126 says not; its guard is unreachable
  all the same (`LifecycleServers.EveryCheckinIsAnswered`).
* The first resolution of an action does not stand: a late report overwrites a timeout or an earlier report, exactly
  when it says something else (`JobProofs.OverwrittenIff`), so a job can stay failed although every action of it has
  succeeded (`JobProofs.LateReportExample`). What holds is that resolved stays resolved
  (`JobProofs.ResolvedStaysResolved`) and that the last report decides (`JobProofs.LastReportDecides`).
* A job that has both kinds of target can close as a success after its playbook has failed
  (`JobProofs.FailedPlaybookSucceeds`).

## Assumptions

* One step runs from its guard to its commit. Races inside one handler are not modelled, except that resolving an
  action and finalising its job are two commits.
* No lock outlives its timeout of thirty minutes while its job is still at work.
* aptly never gives out a snapshot name twice (names carry a time stamp to the second), and reads `_` in the address of
  a publication as the `/` of its prefix, as the client's own comment says.
* Clocks do not go backwards, so audit rows are in time order.
* The order of `Repository.name` in the database is by code point, as in Python.
* For the content hash: the digest is injective, and no package field holds `|` or a line feed.
* For the config fence: a server reports a serial as applied only if some checkin gave it that serial.
* For the DSA list: which characters beyond ASCII are letters or digits is a parameter, as the interpreter's Unicode
  database has it; none of them is white space.
* For filters: `$^` matches no name but the empty one, and no package has an empty name.

## Model

| member | source | states |
|---|---|---|
| JobProofs.NoOrphanedRunningJob | app/tasks.py:144-185 | In every interleaving of commits, a job that is still running after its latest attempt dispatched at least one action has an outstanding action or a finalise call still to come. |
| JobProofs.ResolvedStaysResolved | app/routers/beacon.py:302-314 | Over every run, an action that has been resolved is never outstanding again and keeps its server and job; a late report may still change which resolution it has. |
| JobProofs.OnlyOwnReportDecides | app/routers/beacon.py:302-309 | An action becomes succeeded or failed only through a report by its own server that names it, succeeded exactly for a success outcome, and that report owes its job a finalise call. |
| JobProofs.OverwrittenIff | app/routers/beacon.py:302-309 | The exact condition under which a resolution does not stand: a step changes the status of a resolved action if and only if it is a report of that action by its own server whose outcome means another status. |
| JobProofs.LastReportDecides | app/routers/beacon.py:302-309 | Over every interleaving, a resolved action ends with what its own server reported of it last, and keeps its status if nothing was reported. |
| JobProofs.LateReportExample | app/tasks.py:170-185 | A run from the empty state in which a late report turns a timeout into a success, after which the job is failed although every action of it has succeeded and no finalise call is left. |
| JobProofs.ClosedWithTheRightVerdict | app/tasks.py:162-185 | Apart from cancel and the startup reaper only a finalise call closes a running job; it does so only when no action is outstanding, as failed exactly if some action is failed or timed out at that moment. |
| JobProofs.ClosedJobsAreFrozen | app/tasks.py:170-174 | No interleaving of checkins, reports, sweeps, finalise calls, cancels and reaps changes a closed job. |
| JobProofs.CancelledPendingJobRunsAgain | app/routers/jobs.py:357-381 | The freeze does not bind the worker: a job cancelled while pending is running again once its worker starts. |
| JobProofs.BoundedClosing | app/tasks.py:1463-1491 | After a sweep at time t, once no finalise call is in flight, no job whose latest attempt dispatched actions, all created more than thirty minutes before t, is still running. |
| JobProofs.CoveredJobCanBeClosed | app/tasks.py:1474-1490 | A running job with an outstanding action or an owed finalise call is closed by waiting thirty minutes, sweeping and finalising, with no help from its worker or its servers. |
| JobProofs.NothingDispatchedHangs | app/tasks.py:596-599 | A running job without actions is left running by every sequence of checkins, reports, sweeps and finalise calls. |
| JobProofs.ClosableIff | app/tasks.py:162-185 | For every running job, first attempt or retried: some sequence of ticks, checkins, reports, sweeps and finalise calls closes it if and only if some attempt of it dispatched an action or a finalise call is owed to it. |
| JobProofs.ParkedJobClosesIffItHasTargets | app/tasks.py:590-599 | After an attempt, the first or a later one, with no SSH targets parks its job, beacons, sweep and finalise calls can close it if and only if this attempt dispatched something or an earlier one left an action or a finalise call. |
| JobProofs.OnlyAReportMoves | app/tasks.py:162-185 | Once none of its actions is outstanding and no finalise call is owed, no sequence of ticks, checkins, reports, sweeps and finalise calls without a report of one of its own actions moves a running job. |
| JobProofs.RetriedJobExample | app/tasks.py:589-616 | A run from the empty state to a retried job that is running and parked with nothing outstanding and no call owed; it can still be closed, by another report of an action of its first attempt. |
| JobProofs.EmptyEnvironmentHangs | app/tasks.py:589-599 | The failing case is reachable: an apply-updates job for an environment with no servers. |
| JobProofs.MixedJobDropsSshStatus | app/tasks.py:610-616 | The outcome of the playbook makes no difference to the job exactly when the same attempt also dispatched actions. |
| JobProofs.MixedJobRunsTheSame | app/tasks.py:610-616 | Whatever ran before the playbook ended and whatever runs after, the run of a job that also dispatched actions is the same whether its playbook succeeded or failed. |
| JobProofs.FailedPlaybookSucceeds | app/tasks.py:610-616 | A run from the empty state in which such a job closes as a success after its playbook has failed. |
| JobProofs.StepFollowsArrows | app/routers/beacon.py:181-192 | Every commit moves every action along the arrows queued, delivered, resolved, adds rows only, and never moves time back. |
| JobSteps.StartRuns | app/tasks.py:376-385 | An attempt sets its job running under its own task id, whatever status the job was left with, and touches nothing else. |
| JobSteps.DispatchReachesEveryTarget | app/tasks.py:139-141 | Every beacon target gets one queued action of its own, in the order of the targets, behind the rows there were; the worker then runs the playbook or parks. |
| JobSteps.PlaybookDecides | app/tasks.py:601-616 | Without dispatched actions the playbook closes the job as a success or a failure; with them the job stays as it is. |
| JobSteps.AttemptFails | app/tasks.py:387-427 | Contention, an exception and the last unreachable attempt fail the job; an earlier unreachable attempt leaves it to be delivered again. |
| JobSteps.CheckinDeliversItsOwn | app/routers/beacon.py:181-192 | A checkin delivers its own server's queued actions, stamped with the time, and no other. |
| JobSteps.ReportResolvesItsOwn | app/routers/beacon.py:301-314 | A report resolves the action it names, as succeeded exactly for a success, if that action is the reporting server's, owes its job a finalise call, and changes nothing otherwise. |
| JobSteps.SweepTimesOutTheStale | app/tasks.py:1463-1491 | The sweep times out exactly what has been outstanding for more than thirty minutes, and owes each job concerned exactly one finalise call. |
| JobSteps.CancelWithdrawsTheQueued | app/routers/jobs.py:354-381 | Cancelling fails an open job and withdraws exactly its queued actions; a closed or unknown job is left alone. |
| JobSteps.ReapFailsTheAbandoned | app/main.py:90-98 | The startup reaper fails exactly the running jobs that no active Celery task has. |
| JobSteps.DeathChangesNoRow | app/tasks.py:376-427 | A worker that is killed leaves its job's status and its actions as they are. |
| JobSteps.FinaliseUsesOneCall | app/tasks.py:162-185 | A finalise call is used up whatever it finds, and touches no other job and no action. |
| JobStore.Store.StartAttempt | app/tasks.py:376-385 | The head of both job skeletons is the StartAttempt step: running, under the new Celery id, even over a cancelled status. |
| JobStore.Store.DispatchBeaconActions | app/tasks.py:130-141 | Adds one queued action for each beacon server, in order, behind the rows there were, each for its own server. |
| JobStore.Store.BeginWork | app/tasks.py:589-599 | The part of apply-updates before its playbook is the Dispatch step. |
| JobStore.Store.FinishWork | app/tasks.py:601-616 | The part after the playbook is the SshDone step. |
| JobStore.Store.Checkin | app/routers/beacon.py:181-192 | The loop over pending actions is the Checkin step. |
| JobStore.Store.Report | app/routers/beacon.py:301-314 | The action part of a report is the Report step, finalise call still owed. |
| JobStore.Store.SweepStaleActions | app/tasks.py:1474-1488 | The sweep loop is the Sweep step: stale actions time out and each affected job is owed one finalise call. |
| JobStore.Store.JobIsResolvable | app/tasks.py:144-159 | Counts outstanding actions; true exactly if none belongs to the job. |
| JobStore.Store.FinaliseIfResolvable | app/tasks.py:162-185 | Is the Finalise step, guard, verdict and all. |
| JobStore.Store.CancelJob | app/routers/jobs.py:354-381 | Is the Cancel step: queued actions withdrawn, delivered ones left, job failed. |
| JobStore.Store.ReapStuckJobs | app/main.py:90-98 | The startup loop is the Reap step. |
| ServerLocks.ActiveWorkIsDisjoint | app/tasks.py:449-476 | In every interleaving, work sections active at once have no lock key in common. |
| ServerLocks.FinishedHoldsNothing | app/tasks.py:474-476 | A finished job holds no lock; when every job that began has finished, the lock table is empty. |
| ServerLocks.ContendedNeverWorked | app/tasks.py:453-463 | A job that ends in contention was at work at no moment before. |
| ServerLocks.SomeoneAlwaysWorks | app/tasks.py:449-476 | Sorted fail-fast locking never makes everyone lose: if every job that began has finished and one lost to contention, some job entered its work. |
| ServerLocks.CanWorkTogether | app/tasks.py:387-413 | Two jobs can be at work at the same time if and only if they share no lock key. |
| ServerLocks.EnvironmentLockDoesNotExcludeServerLocks | app/tasks.py:618-623 | A job locked by environment can always be at work together with a server-locked one. |
| ServerLocks.SortedServersAreInOrder | app/tasks.py:453-454 | Distinct server ids, sorted, give strictly ascending keys and exactly those servers. |
| ServerLocks.LockTable.AcquireLock | app/locking.py:23-25 | Takes a free key for the caller, and does nothing to a taken one. |
| ServerLocks.LockTable.AcquireAll | app/tasks.py:451-461 | With other jobs acting between any two calls, ends with a prefix of the keys, all of them exactly if there was no contention, and holds exactly that prefix; contention means that another job holds the next key; undisturbed, it takes free keys only. |
| ServerLocks.LockTable.ReleaseAll | app/tasks.py:474-476 | Leaves the caller holding nothing, whatever other jobs do in between. |
| ServerLocks.LockTable.RunLockedMulti | app/tasks.py:428-476 | Work runs under exactly the locks of the job's servers or not at all; contention names a sorted server whose key another job held when it was asked for; undisturbed, the work runs if and only if every key is free, and the table is as before. |
| LifecycleRuns.EveryRunKeeps | app/routers/lifecycle_environments.py:344-403 | Every invariant the results below rest on holds in every state reachable from an empty database by requests, jobs, sweeps and failures. |
| LifecycleTheorems.RollbackTargetsSurvive | app/routers/lifecycle_environments.py:673-705 | Whatever the audit log still says was live for an assigned pair, rollback accepts: the version row exists, all its snapshots are in aptly, and the switch is one aptly can make; through purges, failed deletions, unassigns, re-assigns and view deletions. |
| LifecycleTheorems.AptlyAgrees | app/routers/lifecycle_environments.py:377-403 | For every assigned pair, aptly's publication at its address and release is exactly the source list of its current version, whose snapshots all exist, and no other pair shares that address and release. |
| LifecycleTheorems.PromotedAgainIff | app/aptly_client.py:42-58 | A published pair can be promoted again if and only if neither its environment's nor its view's name holds an underscore. |
| LifecycleExamples.UnderscoreExample | app/routers/lifecycle_environments.py:377-382 | A run from an empty database to a live pair in environment qa_1 whose promote changes nothing although its version is publishable, and which cannot be assigned again once unassigned. |
| LifecyclePublications.AssignSucceedsIff | app/routers/lifecycle_environments.py:482-518 | An assign that passes the handler's checks goes through if and only if every snapshot of the version is in aptly and what is published at the prefix allows it: with an underscore in the prefix that distribution must not be there, without one it must be there unless nothing is. |
| LifecyclePublications.AssignedAgainIff | app/routers/lifecycle_environments.py:533-552 | A pair that was unassigned can be assigned again, with any publishable version, if and only if neither of its names holds an underscore: its publication is still there. |
| LifecyclePublications.NothingInherited | app/routers/lifecycle_environments.py:682-690 | Right after an assign, also of a pair that was assigned before, there is nothing to roll back to but the version it was assigned with. |
| LifecycleExamples.RemadeViewExample | app/routers/lifecycle_environments.py:377-382 | A run in which a view is unassigned, deleted and made again under its name from another distribution, and can then not be assigned where it was published before. |
| LifecycleSteps.PromoteIff | app/routers/lifecycle_environments.py:371-403 | In every reachable state a promote takes effect if and only if aptly does not refuse, the version is one of the view with all its snapshots there, and neither name holds an underscore; then the row, the publication at the pair's address, one audit row and the serials of exactly the environment's servers change, and otherwise nothing does. |
| LifecycleSteps.RollbackIff | app/routers/lifecycle_environments.py:664-724 | In every reachable state a rollback takes effect if and only if aptly does not refuse and an audit row of this assignment names the version, with the same effect as a promote. |
| LifecycleSteps.AssignIff | app/routers/lifecycle_environments.py:441-518 | In every reachable state an assign takes effect if and only if aptly does not refuse, environment, view and version are there, the pair is not assigned, the snapshots exist and the prefix is accepted; then the pair is live at the version, and otherwise nothing changes. |
| LifecycleSteps.ReleaseIsTheFirstMembers | app/routers/lifecycle_environments.py:69-93 | The release is the distribution of the member repository that comes first by name. |
| LifecycleAssignments.PrefixInjective | app/routers/lifecycle_environments.py:486 | A publish prefix names one environment and one content view, because their names hold no slash. |
| LifecycleAssignments.FirstPublicationApart | app/routers/lifecycle_environments.py:377-382 | A pair's first publication never lands on the address and release of another assigned pair, also where different prefixes have one address. |
| LifecycleTheorems.AuditReplays | app/routers/lifecycle_environments.py:384-401 | Every switch or rollback row starts at the version the pair's previous row ended at (the first at none), the last row of every assigned pair names its current version, and the rows left after purges are the end of all rows ever written. |
| LifecycleAudit.SinceIsEnd | app/tasks.py:1636-1639 | In time order, deleting the rows older than a threshold leaves a suffix, which starts at the first row that is not older. |
| LifecycleTheorems.NothingGoesStale | app/routers/content_views.py:195-215 | In every reachable state each view's members declare no component twice, every version has one source per component, and every stored release is the one that would be derived now. |
| LifecycleCatalog.UnreferencedMayChange | app/routers/repositories.py:454-459 | Changing or deleting a repository no view references leaves every view admissible and every derived release as it was. |
| LifecycleTheorems.NumbersAreDistinct | app/routers/content_views.py:586-596 | Version numbers are distinct within a view, also when the number of a deleted latest version is used again. |
| LifecycleTheorems.NamesAreConserved | app/tasks.py:1191-1232 | However often its deletion failed, a version row lists exactly the names it was cut with that are still in aptly, in order; what was deleted is never listed again. |
| LifecycleTheorems.RowGoesLast | app/tasks.py:1199-1216 | The deletion removes the row only when every name the version was cut with is gone. |
| LifecycleSteps.DeleteVersionIff | app/tasks.py:1183-1232 | In every reachable state a version that was live somewhere, now or by the audit log, is left alone; any other loses its names in order, as many as aptly carries out, and its row with the last of them. |
| LifecycleSnapshots.DeleteSparesOthers | app/tasks.py:1199-1203 | Deleting one version takes no snapshot that another version uses. |
| LifecycleSteps.CreateRepositoryIff | app/routers/repositories.py:104-178 | A repository is made exactly if its name is valid and neither a row nor a mirror has it, with an empty mirror. |
| LifecycleSteps.RepositoryIff | app/routers/repositories.py:454-459 | A repository is replaced or deleted exactly while no view names it and its mirror is there; the mirror goes with the row. |
| LifecycleSteps.FiltersChange | app/routers/content_views.py:494-546 | Filters are added at the end of the view's list and taken from their place in it, and no other view changes. |
| LifecycleSteps.CreateEnvironmentIff | app/routers/lifecycle_environments.py:201-247 | An environment is made exactly under a valid name that no other has. |
| LifecycleSteps.DeleteEnvironmentIff | app/routers/lifecycle_environments.py:316-341 | An environment is deleted exactly while no pair and no server points at it. |
| LifecycleSteps.ServerRows | app/routers/beacon.py:79-95 | A server starts active without a beacon row, facts give an active one its row at serial one, and decommissioning only switches it off. |
| LifecycleIdentity.SyncNoticedIff | app/routers/content_views.py:103-111 | A sync changes what a view's content hash sees if and only if the mirror is a member's and the multiset of packages differs. |
| LifecycleServers.AppliedMeansCurrent | app/routers/beacon.py:296-299 | If servers report only serials a checkin gave them and a server's applied serial is its current one, then since every checkin that handed it out its environment is the same and every pair assigned there now was assigned there then with the same live version. |
| LifecycleServers.AppliedAtMostCurrent | app/routers/beacon.py:296-299 | Under the same assumption the applied serial is never ahead of the current one. |
| LifecycleServers.SerialsNeverDecrease | app/routers/lifecycle_environments.py:46-66 | No step lowers a config serial or drops a beacon row, and a server that changes environment gets a new serial. |
| LifecycleServers.FenceIsExact | app/routers/beacon.py:132-137 | What the current serial was handed out with is all that is live there now if and only if none of it has been unassigned since. |
| LifecycleServers.EveryCheckinIsAnswered | app/routers/beacon.py:120-126 | In every reachable state a checkin by a server that is not decommissioned finds its environment: environments are deleted for good, but never while a server is in one. |
| LifecycleServers.UnassignPassesTheFence | app/routers/lifecycle_environments.py:533-552 | Unassigning leaves a reconciled server reconciled although what is live in its environment has changed. |
| LifecycleExamples.UnassignedServerExample | app/routers/lifecycle_environments.py:533-552 | A run of honest servers at whose end a server passes for current although what it applied is no longer assigned. |
| LifecycleIdentity.RowsLast | app/routers/content_views.py:586-596 | Over any stretch of any run no version or view id is given out again; a version's view, number, sources, content and count never change, nor do a view's name and members. |
| LifecycleIdentity.PublishedOnce | app/routers/content_views.py:584-594 | At every later time in a run at which a version is still the latest of its view, an unforced publish finds nothing to cut, answers with it and changes nothing if and only if the mirrors hold what they held when it was cut. |
| LifecycleIdentity.SameMirrorsSameHoldings | app/routers/content_views.py:574-584 | And they do whenever every member's mirror holds the same multiset of packages, whatever else has happened in between. |
| LifecyclePublish.PublishedTwice | app/routers/content_views.py:584-594 | An unforced publish right after a cut finds the version just cut and changes nothing. |
| LifecyclePublish.PublishedIsCurrent | app/routers/content_views.py:586-683 | Whether it was cut or was there before, the version a publish answers with is the latest of its view and holds what the mirrors hold. |
| LifecyclePublish.HashDecides | app/routers/content_views.py:103-111 | Comparing member contents is the same as comparing the code's hashes, for any injective digest and separator-free package fields. |
| LifecyclePublish.PublishCutsIff | app/routers/content_views.py:564-683 | In every reachable state a publish of an existing view cuts a version if and only if every mirror is there and readable, the latest version does not already hold what they hold or the publish is forced, aptly carries out one call per member and filter and one more per member, no name was used before, and the snapshots can be counted. |
| LifecyclePublish.PublishAnswersIff | app/routers/content_views.py:593-594 | It answers with a version if and only if it cuts one or, unforced, finds the mirrors already cut. |
| LifecyclePublish.CutRow | app/routers/content_views.py:596-671 | The row of a cut has the number after the highest of its view, or one, and was cut under the view's name and filters. |
| LifecyclePublish.EveryMemberIsCut | app/routers/content_views.py:564-582 | The repositories a publish goes through are the view's members, each once, in the order of their names. |
| CutProofs.CutCompletesIff | app/routers/content_views.py:606-631 | With its mirrors there, a cut is made in full if and only if aptly carries out every call and no name of it was ever used. |
| LifecyclePublish.PublishMeansItsFilters | app/routers/content_views.py:597-656 | A completed publish records, for every member, a snapshot of exactly the mirror's packages that pass every filter, one source per component, every name it made exactly once, and the packages of each distinct snapshot once. |
| LifecycleMirrors.StepSticks | app/tasks.py:1313-1338 | A step leaves a repository without its mirror if and only if it had none before or the step is an update of it whose delete_mirror goes through and whose create_mirror fails. |
| LifecycleMirrors.StuckIff | app/tasks.py:1313-1338 | At every moment of every run the repositories without a mirror are exactly those that such an update was made of before. |
| LifecycleMirrors.StuckForGood | app/tasks.py:1313-1338 | A repository without a mirror has none in any later state. |
| LifecycleMirrors.NothingHelps | app/routers/repositories.py:454-459 | Whatever else is in the database, such a repository can be neither updated, deleted, synced nor created again. |
| LifecycleMirrors.NoVersionOfIt | app/routers/content_views.py:574-582 | And no view that has it as a member, then or later, can be cut. |
| LifecycleMirrors.HalfUpdateSticks | app/tasks.py:1313-1338 | One failing create_mirror after a successful delete_mirror is enough to get there. |
| LifecycleMirrors.StuckExample | app/tasks.py:1313-1338 | Two requests from an empty database reach such a repository. |
| ContentStore.Store.Publish | app/routers/content_views.py:564-683 | do_publish as it goes is the publish step: snapshots made stay made, the version is recorded only if all were; an unchanged latest version is returned untouched. |
| ContentStore.Store.CutSnapshots | app/routers/content_views.py:606-640 | The nested loops over repositories and filters make the planned calls in order up to the first failure, and collect every name and every source. |
| ContentStore.Store.CutRepository | app/routers/content_views.py:606-630 | One turn of that loop makes the raw snapshot and the filter chain on top of it, and ends with the name of the last. |
| ContentStore.Store.ReadMirrors | app/routers/content_views.py:574-582 | Reads every member's mirror, or stops at the first that cannot be read. |
| ContentStore.Store.FindLatest | app/routers/content_views.py:586-591 | The version of the view with the highest number, if it has any. |
| ContentStore.Store.CountPackages | app/routers/content_views.py:650-656 | Adds up each distinct snapshot once, whatever order they come in. |
| ContentStore.Store.VersionEverPromoted | app/routers/content_views.py:382-414 | True exactly if the version is live for some pair or some audit row left says it was. |
| ContentStore.Store.DeleteVersion | app/tasks.py:1183-1232 | The deleting loop with its shrinking list is the delete step: the names still there are kept on the row, or the row goes. |
| ContentStore.Store.Point | app/routers/lifecycle_environments.py:377-403 | do_promote: asks aptly to switch or to publish by what it lists, and commits assignment, serials and audit row together or nothing. |
| ContentStore.Store.BumpConfigSerials | app/routers/lifecycle_environments.py:46-66 | Adds one to the serial of every server of the environment that has a beacon row, and changes no other field and no other server. |
| ContentStore.Store.Assign | app/routers/lifecycle_environments.py:441-518 | Assigning is the assign step: the row and its first promote, or nothing at all. |
| ContentStore.Store.Promote | app/routers/lifecycle_environments.py:618-642 | With a version it is the promote step, done exactly if the pair is assigned, the version is one of its view and aptly takes it; without one it is a publish step and then a promote of the version that answers, or the publish step alone when none does; an unassigned pair is refused before either. |
| ContentStore.Store.Rollback | app/routers/lifecycle_environments.py:664-724 | Done exactly if the pair is assigned, an audit row of it names the version and aptly switches; then the row and one audit row say so, and otherwise nothing has changed. |
| ContentStore.Store.WasEverLive | app/routers/lifecycle_environments.py:682-690 | The set built from the audit rows holds the version exactly if some row of this assignment names it. |
| ContentStore.Store.Unassign | app/routers/lifecycle_environments.py:533-552 | Takes exactly this row away, refuses a pair that is not assigned, and leaves every other assignment, every serial, the audit log and the publication as they are. |
| ContentStore.Store.CreateView | app/routers/content_views.py:181-230 | A view is made exactly if name, members and components pass the checks, and it has exactly the members asked for. |
| ContentStore.Store.Collides | app/routers/content_views.py:202-206 | Counting owners per component finds a collision exactly if two members, or one member twice, declare a component. |
| ContentStore.Store.DeleteView | app/routers/content_views.py:279-300 | Is the delete step: refused while assigned, versions gone with the view. |
| ContentStore.Store.UpdateRepository | app/tasks.py:1287-1338 | Is the update step, including the failure between its two aptly calls. |
| ContentStore.Store.PurgeAudit | app/tasks.py:1636-1639 | A row is left exactly if it is not older than the retention; a log in time order loses exactly its rows before the first of those and keeps the rest in order. |
| ContentStore.Store.Reassign | app/routers/servers.py:219-239 | The server ends in the new environment, with its serial one higher exactly if it has a beacon row and was elsewhere. |
| ContentStore.Store.Checkin | app/routers/beacon.py:120-199 | Hands out the current serial with what is live in the server's environment, creating the beacon row at serial one. |
| ContentStore.Store.Report | app/routers/beacon.py:290-299 | Sets the applied serial on success or no_change only. |
| Cut.QueryMeansFilter | app/routers/content_views.py:114-157 | The query written for a filter selects exactly the packages the filter is meant for; an errata filter with no matching erratum selects none. |
| Cut.NamesExample | app/routers/content_views.py:607-620 | The names of the snapshots of a cut with three filters, literally. |
| CutProofs.NamesOfACutAreDistinct | app/routers/content_views.py:606-631 | No two snapshots of one cut are asked for under one name. |
| CutProofs.ExecuteAdds | app/routers/content_views.py:606-631 | Wherever a cut stops, aptly has gained exactly the snapshots made so far, under names never used before, and nothing else changed. |
| CutProofs.CutMeansItsFilters | app/routers/content_views.py:606-631 | After a completed cut each repository's last snapshot holds the packages of its mirror that pass every filter, in order, and no others. |
| CutProofs.PassingKeeps | app/routers/content_views.py:614-630 | Passing every filter is decided package by package and keeps multiplicities. |
| CutProofs.SourcePerComponent | app/routers/content_views.py:632-640 | The recorded sources are one per component of every member, in order. |
| CutProofs.SourcesFromOwners | app/routers/content_views.py:632-640 | Every source is the last snapshot of the member that declares its component. |
| CutProofs.CountedOnce | app/routers/content_views.py:650-656 | The package count is the sum over the members with components of their final snapshots, with no count per component. |
| ContentHash.LexIsByCodePoint | app/routers/content_views.py:108-110 | Entries and names sort by code point: a prefix first, otherwise by the first difference. |
| ContentHash.EntryExample | app/routers/content_views.py:108-110 | One entry of the hashed text, literally. |
| ContentHash.EntriesAreCanonical | app/routers/content_views.py:108-110 | Two listings of separator-free packages give one text exactly if they are the same multiset. |
| ContentHash.HashIsCanonical | app/routers/content_views.py:574-584 | Two readings of uniquely named repositories have one content hash if and only if every repository holds the same multiset of (package, version, architecture). |
| ContentHash.SeparatorsCanCollide | app/routers/content_views.py:108-110 | With a bar inside a field two different packages have one hash, for every digest. |
| PromotionPath.RunRefines | app/routers/lifecycle_environments.py:201-247 | Over every sequence of requests the position table and the plain list stay in step and give the same replies. |
| PromotionPath.EmptyDatabaseRefines | app/routers/lifecycle_environments.py:201-247 | The same from an empty database. |
| PromotionPath.InsertRefines | app/routers/lifecycle_environments.py:220-237 | Creating with a prior is insertion right after it, gaps or not. |
| PromotionPath.SeedRefines | app/routers/lifecycle_environments.py:96-125 | Seeding the Library is putting it at the head. |
| PromotionPath.AppendRefines | app/routers/lifecycle_environments.py:205-237 | Creating without a prior is making sure of the Library and appending at the end. |
| PromotionPath.DeleteRefines | app/routers/lifecycle_environments.py:316-341 | Deleting is removal from the list; the gap it leaves changes nothing. |
| PromotionPath.CreateAfterIff | app/routers/lifecycle_environments.py:201-247 | Creating after a prior goes through if and only if the prior is there and the name is free, and puts the new environment right behind it, the others as they stood. |
| PromotionPath.CreateLastPlaces | app/routers/lifecycle_environments.py:205-237 | Creating without a prior puts the new environment last, behind a Library that heads the path. |
| PromotionPath.DeleteIff | app/routers/lifecycle_environments.py:316-341 | Deleting goes through if and only if the environment is there and unused, and takes exactly it out. |
| PromotionPath.PositionsAreTheOrder | app/routers/lifecycle_environments.py:223-237 | Positions are distinct and compare as the places in the list. |
| PromotionPath.OrderIsKept | app/routers/lifecycle_environments.py:223-237 | No request reorders or renames environments that were there before and after it. |
| PromotionPath.AppendSucceedsIff | app/routers/lifecycle_environments.py:96-125 | Creating without a prior succeeds if and only if the name is free and, while the root has to be seeded, neither the new one nor an existing one is the Library's name. |
| PromotionPath.LibraryNameCanBlockAppending | app/routers/lifecycle_environments.py:105-115 | A run after which appending is refused for every name: the Library deleted, its name given to another environment. |
| PromotionPath.EnvironmentTable.CreateEnvironment | app/routers/lifecycle_environments.py:201-247 | The handler is the create step of the table and, through it, of the list. |
| PromotionPath.EnvironmentTable.DeleteEnvironment | app/routers/lifecycle_environments.py:316-341 | The handler is the delete step of the table and of the list. |
| PromotionPath.EnvironmentTable.FindTail | app/routers/lifecycle_environments.py:212-218 | Finds the row with the highest position. |
| TomlConfig.TomlQuote | cli/groundctl_cli/config.py:31-56 | The quoting loop gives the escaped text, for every string. |
| TomlConfig.SaveConfig | cli/groundctl_cli/config.py:80-89 | The written text is the present keys, each on its line. |
| TomlConfig.WrittenText | cli/groundctl_cli/config.py:80-84 | The text of the file, key by key. |
| TomlConfig.QuotedIsBasicString | cli/groundctl_cli/config.py:31-56 | The quoted text is a basic string of TOML v1.0.0 (section String) if and only if the value holds no DEL, and then denotes the value without its dropped control characters. |
| TomlConfig.ConfigRoundTrip | cli/groundctl_cli/config.py:69-89 | What was saved loads as the same config without the dropped characters, and loads at all if and only if no value holds a DEL. |
| DsaList.ParseDsaList | app/errata_ingest.py:83-135 | The loop gives the block parse of the classified lines, and a refused date refuses the text. |
| DsaProofs.HeaderPattern | app/errata_ingest.py:62 | The header matcher takes a line exactly if it splits as the pattern says, with those groups. |
| DsaProofs.PackagePattern | app/errata_ingest.py:66 | The package matcher takes a line exactly if it splits as the pattern says, with those groups. |
| DsaProofs.CvesPattern | app/errata_ingest.py:64 | The CVE matcher takes a line exactly if it is one pair of braces around text without a closing brace, and splits that text. |
| DsaProofs.OneResultPerHeader | app/errata_ingest.py:92-111 | The parse fails exactly if some header carries a date that does not exist, and otherwise gives one advisory per header line. |
| DsaProofs.NearestHeaderAbove | app/errata_ingest.py:92-127 | The advisory of a header holds the last CVE list and every package line, in order, between it and the next header, and those of no other. |
| DsaRoundTrip.DateRoundTrip | app/errata_ingest.py:96-98 | Every calendar date of years 1 to 9999 is read back from its printed form. |
| DsaList.ValidDateIff | app/errata_ingest.py:96-98 | The dates accepted are those of the Gregorian calendar, month by month. |
| DsaRoundTrip.PrintedExample | app/errata_ingest.py:69-82 | The printed form of one entry, as Debian writes it. |
| DsaRoundTrip.MonthNames | app/errata_ingest.py:96 | The months are printed by their English abbreviations, in order. |
| DsaRoundTrip.NoiseIsIgnored | app/errata_ingest.py:87-130 | Lines that no pattern takes change nothing, wherever they stand. |
| DsaRoundTrip.DsaRoundTrip | app/errata_ingest.py:69-135 | Parsing the printed form of any well-formed list, with unrecognised lines put in anywhere, gives exactly that list. |

## Left out

- Real aptly, Ansible, dpkg and gpg behaviour beyond success or refusal of a call; signing keys and signing checks.
- aptly's own rules on which components a switch may touch: a successful switch is taken to publish exactly the list it was given.
- Celery delivery, Redis and SQLAlchemy internals: an atomic step, a lock map, a commit.
- A process crash between the commit of a report or sweep and its finalise call, which loses the call.
- Running an errata feed into the database: the errata a cut sees are an argument of it.
- The combined publish-and-promote job: a publish step followed by a promote step.
- The 422 for a view without repositories at publish: no such view is reachable, and both models refuse it silently.
- Versions cut before `all_snapshot_names` existed, and rows from before any migration: runs start from an empty database.
- Orphaned snapshots of a failed cut or of a deleted view: they stay in aptly in the model as they do in the code.
- Environments have positions in `PromotionPath` only; `Lifecycle` has their names.
- Authentication, tokens, secrets, rate limits, the UI, the CLI commands, webhooks, metrics, branding, sites and relays.
- Trends, compliance drift, repository health and settings: short folds without state.
- The agent's own loop, which still reads an older shape of the checkin answer.
- The whole of TOML: the reader covers bare keys and basic strings on lines of their own, which is all the writer emits.
- Whether deleting a filtered version succeeds in the end: aptly may refuse the raw snapshot while the filtered one exists.
- ContentStore.Store.PurgeAudit: models the single DELETE statement as one assignment, as the code issues one statement.
- ContentStore.Store.Report: does not truncate the free-text detail, which nothing reads.
- LifecycleServers.AppliedMeansCurrent: does not cover servers that report a serial they were never given, because the handler accepts any number.
