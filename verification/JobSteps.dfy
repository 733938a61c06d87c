/** What each commit of the job protocol changes, row by row, and that it changes nothing else. */
module JobSteps {
  import opened JobProtocol
  import opened Options

  /** Only job j's row may differ. */
  ghost predicate OnlyJob(s: State, s': State, j: nat) {
    && s'.now == s.now && s'.inFlight == s.inFlight && |s'.jobs| == |s.jobs|
    && forall k :: 0 <= k < |s.jobs| && k != j ==> s'.jobs[k] == s.jobs[k]
  }

  /** Only action rows may differ, and of those none in its owner. */
  ghost predicate OnlyActions(s: State, s': State) {
    s'.now == s.now && s'.inFlight == s.inFlight && s'.jobs == s.jobs && |s'.actions| == |s.actions|
  }

  /** An attempt starts whatever status the job was left with. */
  lemma StartRuns(s: State, j: nat, task: nat)
    requires j < |s.jobs| && (s.jobs[j].worker.Unstarted? || s.jobs[j].worker.Retrying?)
    ensures var s' := Apply(s, StartAttempt(j, task));
            OnlyJob(s, s', j) && s'.actions == s.actions && s'.jobs[j] == Job(Running, Some(task), Started)
  {
  }

  /** Every target gets an action of its own, queued for that server, in the targets' order. */
  lemma DispatchReachesEveryTarget(s: State, j: nat, beacons: seq<nat>, hasSsh: bool)
    requires j < |s.jobs| && s.jobs[j].worker.Started?
    ensures var s' := Apply(s, Dispatch(j, beacons, hasSsh));
            && OnlyJob(s, s', j) && s'.jobs[j].status == s.jobs[j].status
            && s'.jobs[j].worker == (if hasSsh then Ssh(|beacons|) else Parked(|beacons|))
            && |s'.actions| == |s.actions| + |beacons| && s'.actions[..|s.actions|] == s.actions
            && forall i :: 0 <= i < |beacons| ==>
                             var a := s'.actions[|s.actions| + i];
                             && a.server == beacons[i] && a.job == j && a.status.Queued? && a.createdAt == s.now
                             && a.deliveredAt.None? && a.resolvedAt.None?
  {
  }

  /** The playbook's result is the job's when the attempt dispatched nothing, and otherwise the job
      stays open for its actions. */
  lemma PlaybookDecides(s: State, j: nat, ok: bool)
    requires j < |s.jobs| && s.jobs[j].worker.Ssh?
    ensures var s' := Apply(s, SshDone(j, ok));
            && OnlyJob(s, s', j) && s'.actions == s.actions
            && (s.jobs[j].worker.dispatched == 0 ==>
                  s'.jobs[j].status == if ok then JobStatus.Success else JobStatus.Failed)
            && (s.jobs[j].worker.dispatched > 0 ==>
                  s'.jobs[j].status == s.jobs[j].status && s'.jobs[j].worker == Parked(s.jobs[j].worker.dispatched))
  {
  }

  /** Contention, an exception and the last unreachable attempt fail the job; an earlier unreachable
      attempt leaves it to be delivered again. */
  lemma AttemptFails(s: State, j: nat, lastAttempt: bool)
    requires j < |s.jobs|
    ensures s.jobs[j].worker.Started? ==>
              Apply(s, LockContention(j)).jobs[j].status.Failed? && Apply(s, WorkerError(j)).jobs[j].status.Failed?
    ensures s.jobs[j].worker.Ssh? ==> Apply(s, WorkerError(j)).jobs[j].status.Failed?
    ensures s.jobs[j].worker.Ssh? ==>
              var job := Apply(s, Unreachable(j, lastAttempt)).jobs[j];
              if lastAttempt then job.status.Failed?
              else job.status == s.jobs[j].status && job.worker == Retrying(s.jobs[j].worker.dispatched)
    ensures OnlyJob(s, Apply(s, LockContention(j)), j) && OnlyJob(s, Apply(s, WorkerError(j)), j)
    ensures OnlyJob(s, Apply(s, Unreachable(j, lastAttempt)), j)
  {
  }

  /** A worker that is killed leaves its job and its actions as they are. */
  lemma DeathChangesNoRow(s: State, j: nat)
    requires j < |s.jobs|
    ensures var s' := Apply(s, WorkerDies(j));
            && OnlyJob(s, s', j) && s'.actions == s.actions
            && s'.jobs[j].status == s.jobs[j].status && s'.jobs[j].task == s.jobs[j].task
            && Dispatched(s'.jobs[j].worker) == Dispatched(s.jobs[j].worker)
  {
  }

  /** A checkin delivers its own server's queued actions, and no other. */
  lemma CheckinDeliversItsOwn(s: State, server: nat, i: nat)
    requires i < |s.actions|
    ensures var s' := Apply(s, Checkin(server));
            && OnlyActions(s, s')
            && s'.actions[i] == if s.actions[i].server == server && s.actions[i].status.Queued? then
                                  s.actions[i].(status := Delivered, deliveredAt := Some(s.now))
                                else s.actions[i]
  {
  }

  /** A report resolves the action it names if that is the reporting server's, and nothing otherwise. */
  lemma ReportResolvesItsOwn(s: State, server: nat, i: nat, outcome: Outcome)
    ensures var s' := Apply(s, Report(server, Some(i), outcome));
            if i < |s.actions| && s.actions[i].server == server then
              && s'.actions == s.actions[i := s'.actions[i]] && s'.jobs == s.jobs && s'.now == s.now
              && s'.actions[i].resolvedAt == Some(s.now) && s'.actions[i].job == s.actions[i].job
              && (s'.actions[i].status.Succeeded? <==> outcome.OutcomeSuccess?)
              && (s'.actions[i].status.Rejected? <==> !outcome.OutcomeSuccess?)
              && s'.inFlight == s.inFlight + multiset{s.actions[i].job}
            else s' == s
    ensures Apply(s, Report(server, None, outcome)) == s
  {
  }

  /** A sweep times out what has been outstanding for more than thirty minutes, and owes each job
      concerned one finalise call. */
  lemma SweepTimesOutTheStale(s: State, i: nat, j: nat)
    requires i < |s.actions|
    ensures var s' := Apply(s, Sweep);
            && s'.jobs == s.jobs && s'.now == s.now && |s'.actions| == |s.actions|
            && s'.actions[i] == (if Overdue(s.actions[i], s.now) then
                                   s.actions[i].(status := TimedOut, resolvedAt := Some(s.now))
                                 else s.actions[i])
            && s'.inFlight[j] == s.inFlight[j] + if JobOverdue(s, j) then 1 else 0
  {
    if JobOverdue(s, j) {
      var k :| 0 <= k < |s.actions| && s.actions[k].job == j && Overdue(s.actions[k], s.now);
      assert Stale(s.actions[k], s.now);
    }
    assert j in StaleJobs(s.actions, s.now) <==> JobOverdue(s, j);
  }

  predicate Overdue(a: Action, now: nat) {
    (a.status.Queued? || a.status.Delivered?) && now - a.createdAt > 30 * 60
  }

  ghost predicate JobOverdue(s: State, j: nat) {
    exists i :: 0 <= i < |s.actions| && s.actions[i].job == j && Overdue(s.actions[i], s.now)
  }

  /** Cancelling fails an open job and withdraws what no server has been handed yet; a closed job is
      left alone. */
  lemma CancelWithdrawsTheQueued(s: State, j: nat, i: nat)
    requires i < |s.actions|
    ensures var s' := Apply(s, Cancel(j));
            if j < |s.jobs| && (s.jobs[j].status.Pending? || s.jobs[j].status.Running?) then
              && OnlyJob(s, s', j) && |s'.actions| == |s.actions|
              && s'.jobs[j] == s.jobs[j].(status := JobStatus.Failed)
              && s'.actions[i] == (if s.actions[i].job == j && s.actions[i].status.Queued? then
                                     s.actions[i].(status := Cancelled, resolvedAt := Some(s.now))
                                   else s.actions[i])
            else s' == s
  {
  }

  /** The startup reaper fails the running jobs that no Celery worker has, and only those. */
  lemma ReapFailsTheAbandoned(s: State, active: set<nat>, j: nat)
    requires j < |s.jobs|
    ensures var s' := Apply(s, Reap(active));
            && s'.now == s.now && s'.inFlight == s.inFlight && s'.actions == s.actions && |s'.jobs| == |s.jobs|
            && s'.jobs[j] == (if s.jobs[j].status.Running?
                                 && !(s.jobs[j].task.Some? && s.jobs[j].task.value in active) then
                                s.jobs[j].(status := JobStatus.Failed)
                              else s.jobs[j])
  {
  }

  /** A finalise call is used up whatever it finds, and touches no other job. */
  lemma FinaliseUsesOneCall(s: State, j: nat)
    requires j in s.inFlight
    ensures var s' := Apply(s, Finalise(j));
            && s'.inFlight == s.inFlight - multiset{j} && s'.actions == s.actions && s'.now == s.now
            && |s'.jobs| == |s.jobs|
            && forall k :: 0 <= k < |s.jobs| && k != j ==> s'.jobs[k] == s.jobs[k]
  {
  }
}
