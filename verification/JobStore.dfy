/** The handlers and tasks themselves: each method is one commit, row by row as the code goes, and
    is proved to be the step of JobProtocol that every interleaving is made of. */
module JobStore {
  import opened JobProtocol
  import opened Options

  lemma StaleJobsExtend(actions: seq<Action>, n: nat, now: nat)
    requires n < |actions|
    ensures StaleJobs(actions[..n + 1], now)
         == StaleJobs(actions[..n], now) + if Stale(actions[n], now) then {actions[n].job} else {}
  {
    forall j | j in StaleJobs(actions[..n], now) ensures j in StaleJobs(actions[..n + 1], now) {
      var i :| 0 <= i < n && Stale(actions[..n][i], now) && j == actions[..n][i].job;
      assert actions[..n + 1][i] == actions[..n][i];
    }
    assert actions[..n + 1][n] == actions[n];
    forall j | j in StaleJobs(actions[..n + 1], now) && !(Stale(actions[n], now) && j == actions[n].job)
      ensures j in StaleJobs(actions[..n], now)
    {
      var i :| 0 <= i < n + 1 && Stale(actions[..n + 1][i], now) && j == actions[..n + 1][i].job;
      assert actions[..n][i] == actions[..n + 1][i];
    }
  }

  class Store {
    var now: nat
    var jobs: seq<Job>
    var actions: seq<Action>
    var inFlight: multiset<nat>

    ghost function View(): State
      reads this
    {
      State(now, jobs, actions, inFlight)
    }

    constructor ()
      ensures View() == INIT
    {
      now, jobs, actions, inFlight := 0, [], [], multiset{};
    }

    method CreateJob() returns (id: nat)
      modifies this
      ensures View() == Apply(old(View()), Step.CreateJob)
      ensures id == |old(jobs)| && jobs[id].status.Pending?
    {
      id := |jobs|;
      jobs := jobs + [Job(Pending, None, Unstarted)];
    }

    // The head of _run_locked_job and _run_locked_job_multi, up to their first commit.
    method StartAttempt(j: nat, task: nat) returns (found: bool)
      requires j < |jobs| ==> jobs[j].worker.Unstarted? || jobs[j].worker.Retrying?
      modifies this`jobs
      ensures found <==> j < |jobs|
      ensures View() == Apply(old(View()), Step.StartAttempt(j, task))
    {
      found := j < |jobs|;
      if found {
        jobs := jobs[j := Job(Running, Some(task), Started)];
      }
    }

    // _mark_job, called by the job's own worker.
    method MarkJob(j: nat, status: JobStatus)
      requires j < |jobs|
      modifies this`jobs
      ensures View() == CloseByWorker(old(View()), j, status)
    {
      jobs := jobs[j := jobs[j].(status := status, worker := Closed)];
    }

    method DispatchBeaconActions(j: nat, beacons: seq<nat>)
      modifies this`actions
      ensures actions == old(actions) + NewActions(j, beacons, now)
      ensures |actions| == |old(actions)| + |beacons| && old(actions) <= actions
      ensures forall i :: 0 <= i < |beacons| ==>
                var a := actions[|old(actions)| + i];
                && a.server == beacons[i] && a.job == j && a.status.Queued? && a.createdAt == now
                && a.deliveredAt.None? && a.resolvedAt.None?
    {
      for i := 0 to |beacons|
        invariant actions == old(actions) + NewActions(j, beacons, now)[..i]
      {
        actions := actions + [Action(beacons[i], j, Queued, now, None, None)];
      }
    }

    // work() of apply_updates_task and bulk_apply_updates_task, up to the playbook run.
    method BeginWork(j: nat, beacons: seq<nat>, hasSsh: bool) returns (pendingBeacon: bool)
      requires j < |jobs| && jobs[j].worker.Started?
      modifies this`actions, this`jobs
      ensures pendingBeacon <==> !hasSsh
      ensures View() == Apply(old(View()), Dispatch(j, beacons, hasSsh))
    {
      if beacons != [] {
        DispatchBeaconActions(j, beacons);
      }
      pendingBeacon := !hasSsh;
      jobs := jobs[j := jobs[j].(worker := if hasSsh then Ssh(|beacons|) else Parked(|beacons|))];
    }

    // The rest of work() once the playbook has returned, and the skeleton's last commit.
    method FinishWork(j: nat, ok: bool)
      requires j < |jobs| && jobs[j].worker.Ssh?
      modifies this`jobs
      ensures View() == Apply(old(View()), SshDone(j, ok))
    {
      if jobs[j].worker.dispatched > 0 {
        jobs := jobs[j := jobs[j].(worker := Parked(jobs[j].worker.dispatched))];
      } else {
        MarkJob(j, if ok then JobStatus.Success else JobStatus.Failed);
      }
    }

    method Checkin(server: nat)
      modifies this`actions
      ensures View() == Apply(old(View()), Step.Checkin(server))
    {
      for i := 0 to |actions|
        invariant |actions| == |old(actions)|
        invariant forall k :: 0 <= k < i ==> actions[k] == Deliver(old(actions)[k], server, now)
        invariant forall k :: i <= k < |actions| ==> actions[k] == old(actions)[k]
      {
        var action := actions[i];
        if action.server == server && (action.status.Queued? || action.status.Delivered?) {
          if action.status.Queued? {
            actions := actions[i := action.(status := Delivered, deliveredAt := Some(now))];
          }
        }
      }
    }

    method Report(server: nat, actionId: Option<nat>, outcome: Outcome)
      modifies this`actions, this`inFlight
      ensures View() == Apply(old(View()), Step.Report(server, actionId, outcome))
    {
      var toFinalise: Option<nat> := None;
      if actionId.Some? && actionId.value < |actions| {
        var action := actions[actionId.value];
        if action.server == server {
          var status := if outcome == OutcomeSuccess then Succeeded else Rejected;
          actions := actions[actionId.value := action.(status := status, resolvedAt := Some(now))];
          toFinalise := Some(action.job);
        }
      }
      // The commit is here; the finalise call that follows is a step of its own.
      if toFinalise.Some? {
        inFlight := inFlight + multiset{toFinalise.value};
      }
    }

    method SweepStaleActions()
      modifies this`actions, this`inFlight
      ensures View() == Apply(old(View()), Sweep)
    {
      var jobIds: set<nat> := {};
      for i := 0 to |actions|
        invariant |actions| == |old(actions)|
        invariant forall k :: 0 <= k < i ==> actions[k] == TimeOut(old(actions)[k], now)
        invariant forall k :: i <= k < |actions| ==> actions[k] == old(actions)[k]
        invariant jobIds == StaleJobs(old(actions)[..i], now)
        invariant inFlight == old(inFlight)
      {
        var action := actions[i];
        StaleJobsExtend(old(actions), i, now);
        if (action.status.Queued? || action.status.Delivered?) && action.createdAt + STALE_AFTER < now {
          jobIds := jobIds + {action.job};
          actions := actions[i := action.(status := TimedOut, resolvedAt := Some(now))];
        }
      }
      assert old(actions)[..|actions|] == old(actions);
      inFlight := inFlight + multiset(jobIds);
    }

    // _job_is_resolvable: no outstanding row of this job is counted.
    method JobIsResolvable(j: nat) returns (resolvable: bool)
      ensures resolvable <==> Resolvable(actions, j)
    {
      var outstanding := 0;
      for i := 0 to |actions|
        invariant outstanding >= 0
        invariant outstanding == 0 <==> forall k :: 0 <= k < i && actions[k].job == j ==> !Outstanding(actions[k])
      {
        if actions[i].job == j && (actions[i].status.Queued? || actions[i].status.Delivered?) {
          outstanding := outstanding + 1;
        }
      }
      resolvable := outstanding == 0;
    }

    method CountUnsuccessful(j: nat) returns (failures: nat)
      ensures failures > 0 <==> AnyUnsuccessful(actions, j)
    {
      failures := 0;
      for i := 0 to |actions|
        invariant failures > 0 <==> exists k :: 0 <= k < i && actions[k].job == j && Unsuccessful(actions[k])
      {
        if actions[i].job == j && (actions[i].status.Rejected? || actions[i].status.TimedOut?) {
          failures := failures + 1;
        }
      }
    }

    // One call of _finalize_job_if_resolvable that was in flight, from its first read to its commit.
    method FinaliseIfResolvable(j: nat)
      requires j in inFlight
      modifies this`inFlight, this`jobs
      ensures View() == Apply(old(View()), Finalise(j))
    {
      inFlight := inFlight - multiset{j};
      if j >= |jobs| || jobs[j].status != Running {
        return;
      }
      var resolvable := JobIsResolvable(j);
      if !resolvable {
        return;
      }
      var failures := CountUnsuccessful(j);
      jobs := jobs[j := jobs[j].(status := if failures > 0 then JobStatus.Failed else JobStatus.Success)];
    }

    method CancelJob(j: nat) returns (accepted: bool)
      modifies this`actions, this`jobs
      ensures accepted <==> j < |old(jobs)| && (old(jobs)[j].status.Pending? || old(jobs)[j].status.Running?)
      ensures View() == Apply(old(View()), Cancel(j))
    {
      if j >= |jobs| || (jobs[j].status != Pending && jobs[j].status != Running) {
        return false;
      }
      for i := 0 to |actions|
        invariant |actions| == |old(actions)|
        invariant jobs == old(jobs)
        invariant forall k :: 0 <= k < i ==> actions[k] == Withdraw(old(actions)[k], j, now)
        invariant forall k :: i <= k < |actions| ==> actions[k] == old(actions)[k]
      {
        if actions[i].job == j && actions[i].status == Queued {
          actions := actions[i := actions[i].(status := Cancelled, resolvedAt := Some(now))];
        }
      }
      jobs := jobs[j := jobs[j].(status := JobStatus.Failed)];
      return true;
    }

    method ReapStuckJobs(active: set<nat>)
      modifies this`jobs
      ensures View() == Apply(old(View()), Reap(active))
    {
      for j := 0 to |jobs|
        invariant |jobs| == |old(jobs)|
        invariant forall k :: 0 <= k < j ==> jobs[k] == ReapJob(old(jobs)[k], active)
        invariant forall k :: j <= k < |jobs| ==> jobs[k] == old(jobs)[k]
      {
        if jobs[j].status == Running && (jobs[j].task == None || jobs[j].task.value !in active) {
          jobs := jobs[j := jobs[j].(status := JobStatus.Failed)];
        }
      }
    }
  }
}
