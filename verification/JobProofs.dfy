/** What every interleaving of the job protocol keeps. */
module JobProofs {
  import opened JobProtocol
  import opened Options

  lemma {:induction false} RunAppend(s: State, before: seq<Step>, after: seq<Step>)
    ensures Run(s, before + after) == Run(Run(s, before), after)
    decreases |before|
  {
    if before == [] {
      assert before + after == after;
    } else {
      assert (before + after)[1..] == before[1..] + after;
      RunAppend(Apply(s, before[0]), before[1..], after);
    }
  }

  // ----- no orphaned running job -----------------------------------------------------------------

  ghost predicate HasOutstanding(s: State, j: nat) {
    exists i :: 0 <= i < |s.actions| && s.actions[i].job == j && Outstanding(s.actions[i])
  }

  /** Something will still look at this job: an action to resolve or a finalise call to run. */
  ghost predicate Covered(s: State, j: nat) {
    HasOutstanding(s, j) || j in s.inFlight
  }

  /** Running, with a latest attempt that dispatched something. */
  predicate MustBeCovered(s: State, j: nat) {
    j < |s.jobs| && s.jobs[j].status.Running? && Dispatched(s.jobs[j].worker) > 0
  }

  ghost predicate NoOrphan(s: State) {
    forall j: nat :: MustBeCovered(s, j) ==> Covered(s, j)
  }

  lemma DispatchCovers(s: State, j: nat, beacons: seq<nat>, hasSsh: bool)
    requires j < |s.jobs| && s.jobs[j].worker.Started? && beacons != []
    ensures Covered(DispatchJob(s, j, beacons, hasSsh), j)
  {
    var s' := DispatchJob(s, j, beacons, hasSsh);
    assert s'.actions[|s.actions|] == Action(beacons[0], j, Queued, s.now, None, None);
  }

  predicate Cancels(s: State, step: Step, j: nat) {
    step == Cancel(j) && j < |s.jobs| && (s.jobs[j].status.Pending? || s.jobs[j].status.Running?)
  }

  lemma StepKeepsCovering(s: State, step: Step, i: nat)
    requires i < |s.actions| && Outstanding(s.actions[i]) && !Cancels(s, step, s.actions[i].job)
    ensures i < |Apply(s, step).actions| && Apply(s, step).actions[i].job == s.actions[i].job
    ensures Outstanding(Apply(s, step).actions[i]) || s.actions[i].job in Apply(s, step).inFlight
  {
    if step.Sweep? && Stale(s.actions[i], s.now) {
      assert s.actions[i].job in StaleJobs(s.actions, s.now);
    }
  }

  lemma OnlyFinaliseTakesACall(s: State, step: Step, j: nat)
    requires step != Finalise(j) && j in s.inFlight
    ensures j in Apply(s, step).inFlight && |s.jobs| <= |Apply(s, step).jobs|
  {
  }

  lemma FinaliseClosesOrWaits(s: State, j: nat)
    requires j < |s.jobs| && j in s.inFlight
    ensures FinaliseJob(s, j).actions == s.actions && |FinaliseJob(s, j).jobs| == |s.jobs|
    ensures FinaliseJob(s, j).jobs[j].status.Running? ==> HasOutstanding(s, j)
  {
    assert Resolvable(s.actions, j) || HasOutstanding(s, j);
  }

  lemma CallsKeepCovered(s: State, step: Step, j: nat)
    requires j < |s.jobs| && j in s.inFlight
    ensures j < |Apply(s, step).jobs|
    ensures Apply(s, step).jobs[j].status.Running? ==> Covered(Apply(s, step), j)
  {
    if step == Finalise(j) {
      FinaliseClosesOrWaits(s, j);
    } else {
      OnlyFinaliseTakesACall(s, step, j);
    }
  }

  lemma CancelCloses(s: State, step: Step, j: nat)
    requires j < |s.jobs| && Cancels(s, step, j)
    ensures j < |Apply(s, step).jobs| && !Apply(s, step).jobs[j].status.Running?
  {
  }

  lemma JobsStay(s: State, step: Step)
    ensures |s.jobs| <= |Apply(s, step).jobs|
  {
  }

  lemma StepKeepsCovered(s: State, step: Step, j: nat)
    requires j < |s.jobs| && Covered(s, j)
    ensures j < |Apply(s, step).jobs|
    ensures Apply(s, step).jobs[j].status.Running? ==> Covered(Apply(s, step), j)
  {
    JobsStay(s, step);
    if j in s.inFlight {
      CallsKeepCovered(s, step, j);
    } else if Cancels(s, step, j) {
      CancelCloses(s, step, j);
    } else {
      var i :| 0 <= i < |s.actions| && s.actions[i].job == j && Outstanding(s.actions[i]);
      StepKeepsCovering(s, step, i);
    }
  }

  lemma OutsideWasDispatched(s: State, step: Step, j: nat)
    requires MustBeCovered(Apply(s, step), j) && OutsideWorker(step)
    ensures MustBeCovered(s, j)
  {
  }

  lemma WorkerWasDispatched(s: State, step: Step, j: nat)
    requires MustBeCovered(Apply(s, step), j) && !OutsideWorker(step) && !(step.Dispatch? && step.job == j)
    ensures MustBeCovered(s, j)
  {
  }

  /** A job that a dispatch does not concern, and that must be covered after the step, was one that
      had to be covered before it. */
  lemma WasDispatched(s: State, step: Step, j: nat)
    requires MustBeCovered(Apply(s, step), j) && !(step.Dispatch? && step.job == j)
    ensures MustBeCovered(s, j)
  {
    if OutsideWorker(step) {
      OutsideWasDispatched(s, step, j);
    } else {
      WorkerWasDispatched(s, step, j);
    }
  }

  lemma DispatchKeepsNoOrphan(s: State, k: nat, beacons: seq<nat>, hasSsh: bool)
    requires NoOrphan(s)
    ensures NoOrphan(DispatchJob(s, k, beacons, hasSsh))
  {
    var s' := DispatchJob(s, k, beacons, hasSsh);
    forall j: nat | MustBeCovered(s', j) ensures Covered(s', j) {
      if j == k && s.jobs[j].worker.Started? {
        DispatchCovers(s, k, beacons, hasSsh);
      } else {
        StepKeepsCovered(s, Dispatch(k, beacons, hasSsh), j);
      }
    }
  }

  lemma StepKeepsNoOrphan(s: State, step: Step)
    requires NoOrphan(s)
    ensures NoOrphan(Apply(s, step))
  {
    if step.Dispatch? {
      DispatchKeepsNoOrphan(s, step.job, step.beacons, step.hasSsh);
    } else {
      OtherStepKeepsNoOrphan(s, step);
    }
  }

  lemma OtherStepKeepsNoOrphan(s: State, step: Step)
    requires NoOrphan(s) && !step.Dispatch?
    ensures NoOrphan(Apply(s, step))
  {
    forall j: nat | MustBeCovered(Apply(s, step), j) ensures Covered(Apply(s, step), j) {
      WasDispatched(s, step, j);
      StepKeepsCovered(s, step, j);
    }
  }

  lemma {:induction false} RunKeepsNoOrphan(s: State, steps: seq<Step>)
    requires NoOrphan(s)
    ensures NoOrphan(Run(s, steps))
    decreases |steps|
  {
    if steps != [] {
      StepKeepsNoOrphan(s, steps[0]);
      RunKeepsNoOrphan(Apply(s, steps[0]), steps[1..]);
    }
  }

  /** In every interleaving, a job that is still running after its latest attempt dispatched at
      least one action has an outstanding action or a finalise call in flight for it. */
  lemma NoOrphanedRunningJob(steps: seq<Step>, j: nat)
    ensures var s := Run(INIT, steps);
            j < |s.jobs| && s.jobs[j].status.Running? && Dispatched(s.jobs[j].worker) > 0 ==> Covered(s, j)
  {
    RunKeepsNoOrphan(INIT, steps);
  }

  // ----- the life of an action ---------------------------------------------------------------------

  /** The arrows of the action table. A report may land on an action in any status, so a late one
      overwrites a timeout; nothing leads back to an outstanding status. */
  ghost predicate Arrow(a: Action, b: Action) {
    && b.server == a.server && b.job == a.job && b.createdAt == a.createdAt
    && (b.status == a.status
        || (a.status.Queued? && b.status.Delivered?)
        || (a.status.Queued? && b.status.Cancelled?)
        || (Outstanding(a) && b.status.TimedOut?)
        || b.status.Succeeded? || b.status.Rejected?)
  }

  /** Rows of one job stay rows of that job, and the timestamps say how far an action got. */
  ghost predicate WellFormed(s: State) {
    && (forall i :: 0 <= i < |s.actions| ==> WellFormedAction(s, s.actions[i]))
    && (forall j :: j in s.inFlight ==> j < |s.jobs|)
  }

  ghost predicate WellFormedAction(s: State, a: Action) {
    && a.job < |s.jobs|
    && a.createdAt <= s.now
    && (a.status.Queued? ==> a.deliveredAt.None?)
    && (a.status.Delivered? ==> a.deliveredAt.Some? && a.createdAt <= a.deliveredAt.value <= s.now)
    && (Outstanding(a) <==> a.resolvedAt.None?)
    && (a.resolvedAt.Some? ==> a.createdAt <= a.resolvedAt.value <= s.now)
    && (a.status.TimedOut? ==> a.createdAt + STALE_AFTER < a.resolvedAt.value)
  }

  /** What one step may do to the rows: time passes, rows are only added, and each action follows an arrow. */
  ghost predicate Evolves(s: State, s': State) {
    && s.now <= s'.now
    && |s.jobs| <= |s'.jobs|
    && |s.actions| <= |s'.actions|
    && (forall i :: 0 <= i < |s.actions| ==> Arrow(s.actions[i], s'.actions[i]))
    && (forall i :: |s.actions| <= i < |s'.actions| ==> s'.actions[i].createdAt >= s.now)
  }

  lemma StepFollowsArrow(s: State, step: Step, i: nat)
    requires i < |s.actions|
    ensures i < |Apply(s, step).actions| && Arrow(s.actions[i], Apply(s, step).actions[i])
  {
  }

  lemma StepFollowsArrows(s: State, step: Step)
    ensures Evolves(s, Apply(s, step))
  {
    forall i | 0 <= i < |s.actions| ensures Arrow(s.actions[i], Apply(s, step).actions[i]) {
      StepFollowsArrow(s, step, i);
    }
  }

  lemma StepKeepsInFlight(s: State, step: Step, j: nat)
    requires WellFormed(s) && j in Apply(s, step).inFlight
    ensures j < |Apply(s, step).jobs|
  {
    StepFollowsArrows(s, step);
    if step.Report? && OwnAction(s, step.server, step.action) {
      assert WellFormedAction(s, s.actions[step.action.value]);
    } else if step.Sweep? && j !in s.inFlight {
      var i :| 0 <= i < |s.actions| && Stale(s.actions[i], s.now) && j == s.actions[i].job;
      assert WellFormedAction(s, s.actions[i]);
    }
  }

  lemma StepKeepsAction(s: State, step: Step, i: nat)
    requires WellFormed(s) && i < |Apply(s, step).actions|
    ensures WellFormedAction(Apply(s, step), Apply(s, step).actions[i])
  {
    StepFollowsArrows(s, step);
    if i < |s.actions| {
      assert WellFormedAction(s, s.actions[i]);
    }
  }

  lemma StepEvolves(s: State, step: Step)
    requires WellFormed(s)
    ensures WellFormed(Apply(s, step)) && Evolves(s, Apply(s, step))
  {
    StepFollowsArrows(s, step);
    forall i | 0 <= i < |Apply(s, step).actions| ensures WellFormedAction(Apply(s, step), Apply(s, step).actions[i]) {
      StepKeepsAction(s, step, i);
    }
    forall j | j in Apply(s, step).inFlight ensures j < |Apply(s, step).jobs| {
      StepKeepsInFlight(s, step, j);
    }
  }

  lemma {:induction false} RunEvolves(s: State, steps: seq<Step>)
    requires WellFormed(s)
    ensures WellFormed(Run(s, steps))
    ensures s.now <= Run(s, steps).now
    decreases |steps|
  {
    if steps != [] {
      StepEvolves(s, steps[0]);
      RunEvolves(Apply(s, steps[0]), steps[1..]);
    }
  }

  /** A resolved action is never outstanding again, whatever runs, and it keeps its server and job. */
  lemma {:induction false} ResolvedStaysResolved(s: State, steps: seq<Step>, i: nat)
    requires WellFormed(s) && i < |s.actions| && !Outstanding(s.actions[i])
    ensures var s' := Run(s, steps);
            && i < |s'.actions| && !Outstanding(s'.actions[i])
            && s'.actions[i].server == s.actions[i].server && s'.actions[i].job == s.actions[i].job
    decreases |steps|
  {
    if steps != [] {
      StepEvolves(s, steps[0]);
      var s' := Apply(s, steps[0]);
      assert Arrow(s.actions[i], s'.actions[i]);
      ResolvedStaysResolved(s', steps[1..], i);
    }
  }

  /** Only a report by the action's own server decides it, a success report makes it succeed and any
      other rejects it, and the report leaves a finalise call behind. */
  lemma OnlyOwnReportDecides(s: State, step: Step, i: nat)
    requires i < |s.actions| <= |Apply(s, step).actions|
    requires Apply(s, step).actions[i].status != s.actions[i].status
    requires Apply(s, step).actions[i].status.Succeeded? || Apply(s, step).actions[i].status.Rejected?
    ensures step.Report? && step.server == s.actions[i].server && step.action == Some(i)
    ensures Apply(s, step).actions[i].status.Succeeded? <==> step.outcome.OutcomeSuccess?
    ensures s.actions[i].job in Apply(s, step).inFlight
  {
  }

  /** The step is a report of the action by its own server. */
  predicate OwnReport(step: Step, server: nat, i: nat) {
    step.Report? && step.server == server && step.action == Some(i)
  }

  function Decided(outcome: Outcome): ActionStatus {
    if outcome.OutcomeSuccess? then Succeeded else Rejected
  }

  /** A resolution is overwritten exactly by a report of its own server that says something else. */
  lemma OverwrittenIff(s: State, step: Step, i: nat)
    requires i < |s.actions| && !Outstanding(s.actions[i])
    ensures i < |Apply(s, step).actions|
    ensures Apply(s, step).actions[i].status != s.actions[i].status <==>
              OwnReport(step, s.actions[i].server, i) && Decided(step.outcome) != s.actions[i].status
  {
    StepFollowsArrow(s, step, i);
  }

  function LastReport(steps: seq<Step>, server: nat, i: nat): Option<Outcome>
    decreases |steps|
  {
    if steps == [] then None
    else if LastReport(steps[1..], server, i).Some? then LastReport(steps[1..], server, i)
    else if OwnReport(steps[0], server, i) then Some(steps[0].outcome)
    else None
  }

  /** Not the first resolution of an action stands but the last report of it, in every interleaving;
      without a report the first one does. */
  lemma {:induction false} LastReportDecides(s: State, steps: seq<Step>, i: nat)
    requires i < |s.actions| && !Outstanding(s.actions[i])
    ensures i < |Run(s, steps).actions|
    ensures var last := LastReport(steps, s.actions[i].server, i);
            Run(s, steps).actions[i].status == if last.Some? then Decided(last.value) else s.actions[i].status
    decreases |steps|
  {
    if steps != [] {
      StepFollowsArrow(s, steps[0], i);
      OverwrittenIff(s, steps[0], i);
      LastReportDecides(Apply(s, steps[0]), steps[1..], i);
    }
  }

  lemma RunOne(s: State, step: Step, steps: seq<Step>)
    ensures Run(s, [step] + steps) == Run(Apply(s, step), steps)
  {
    assert ([step] + steps)[1..] == steps;
  }

  lemma RunTwo(s: State, a: Step, b: Step)
    ensures Run(s, [a, b]) == Apply(Apply(s, a), b)
  {
    RunOne(Apply(s, a), b, []);
    RunOne(s, a, [b]);
    assert [a] + [b] == [a, b] && [b] + [] == [b];
  }

  lemma RunThree(s: State, a: Step, b: Step, c: Step, rest: seq<Step>)
    ensures Run(s, [a, b, c] + rest) == Run(Apply(Apply(Apply(s, a), b), c), rest)
  {
    RunTwo(s, a, b);
    RunOne(Apply(Apply(s, a), b), c, rest);
    RunAppend(s, [a, b], [c] + rest);
    assert [a, b] + ([c] + rest) == [a, b, c] + rest;
  }

  /** One job, one action of it; the sweep times the action out and its finalise call fails the job. */
  const TO_TIMEOUT :=
    [CreateJob, StartAttempt(0, 1), Dispatch(0, [7], false)] + [Tick(STALE_AFTER + 1), Sweep, Finalise(0)]

  const TIMED_OUT := State(STALE_AFTER + 1, [Job(JobStatus.Failed, Some(1), Parked(1))],
                           [Action(7, 0, TimedOut, 0, None, Some(STALE_AFTER + 1))], multiset{})

  lemma TimeoutExample()
    ensures Run(INIT, TO_TIMEOUT) == TIMED_OUT
  {
    var rest := [Tick(STALE_AFTER + 1), Sweep, Finalise(0)];
    RunThree(INIT, CreateJob, StartAttempt(0, 1), Dispatch(0, [7], false), rest);
    var s := State(0, [Job(Running, Some(1), Parked(1))], [Action(7, 0, Queued, 0, None, None)], multiset{});
    assert Apply(Apply(Apply(INIT, CreateJob), StartAttempt(0, 1)), Dispatch(0, [7], false)) == s;
    SweepExample(s);
    RunThree(s, Tick(STALE_AFTER + 1), Sweep, Finalise(0), []);
    assert rest + [] == rest;
  }

  lemma SweepExample(s: State)
    requires s == State(0, [Job(Running, Some(1), Parked(1))], [Action(7, 0, Queued, 0, None, None)], multiset{})
    ensures Apply(Apply(Apply(s, Tick(STALE_AFTER + 1)), Sweep), Finalise(0)) == TIMED_OUT
  {
    var s1 := Apply(s, Tick(STALE_AFTER + 1));
    assert Stale(s1.actions[0], s1.now);
    assert StaleJobs(s1.actions, s1.now) == {0};
    var s2 := Apply(s1, Sweep);
    assert s2.actions == TIMED_OUT.actions && s2.inFlight == multiset{0};
    assert s2.actions[0].job == 0 && Unsuccessful(s2.actions[0]);
    assert AnyUnsuccessful(s2.actions, 0) && Resolvable(s2.actions, 0);
    assert s2.inFlight - multiset{0} == multiset{};
  }

  /** A late report then turns the timeout into a success, and the job stays failed although every
      action of it has succeeded and no finalise call is left. */
  lemma LateReportExample()
    ensures var s := Run(INIT, TO_TIMEOUT + [Report(7, Some(0), OutcomeSuccess), Finalise(0)]);
            && |s.jobs| == 1 && s.jobs[0].status.Failed? && s.inFlight == multiset{}
            && |s.actions| == 1 && s.actions[0].job == 0 && s.actions[0].status.Succeeded?
  {
    TimeoutExample();
    RunAppend(INIT, TO_TIMEOUT, [Report(7, Some(0), OutcomeSuccess), Finalise(0)]);
    RunTwo(TIMED_OUT, Report(7, Some(0), OutcomeSuccess), Finalise(0));
    assert Apply(TIMED_OUT, Report(7, Some(0), OutcomeSuccess)).inFlight == multiset{0};
    assert multiset{0} - multiset{0} == multiset{};
  }

  // ----- verdict and freezing ------------------------------------------------------------------------

  /** Apart from an operator's cancel and the startup reaper, only a finalise call closes a running
      job from outside its worker, and it does so exactly when nothing of the job is outstanding:
      failed if some action was rejected or timed out at that moment, success otherwise. */
  lemma ClosedWithTheRightVerdict(s: State, step: Step, j: nat)
    requires j < |s.jobs| && s.jobs[j].status.Running? && OutsideWorker(step)
    ensures var s' := Apply(s, step);
            && |s'.jobs| == |s.jobs|
            && s'.jobs[j].worker == s.jobs[j].worker
            && (s'.jobs[j].status.Success? <==>
                  step == Finalise(j) && j in s.inFlight
                  && forall i :: 0 <= i < |s.actions| && s.actions[i].job == j ==>
                                   s.actions[i].status.Succeeded? || s.actions[i].status.Cancelled?)
            && (s'.jobs[j].status.Failed? <==>
                  || step == Cancel(j)
                  || (step.Reap? && (s.jobs[j].task.None? || s.jobs[j].task.value !in step.active))
                  || (step == Finalise(j) && j in s.inFlight && !HasOutstanding(s, j)
                      && exists i :: 0 <= i < |s.actions| && s.actions[i].job == j && Unsuccessful(s.actions[i])))
            && !s'.jobs[j].status.Pending?
  {
    if step == Finalise(j) && j in s.inFlight {
      assert Resolvable(s.actions, j) <==> !HasOutstanding(s, j);
      if AnyUnsuccessful(s.actions, j) {
        var i :| 0 <= i < |s.actions| && s.actions[i].job == j && Unsuccessful(s.actions[i]);
        assert !s.actions[i].status.Succeeded? && !s.actions[i].status.Cancelled?;
      }
      forall i | 0 <= i < |s.actions| && s.actions[i].job == j
        ensures s.actions[i].status.Succeeded? || s.actions[i].status.Cancelled?
                || Outstanding(s.actions[i]) || Unsuccessful(s.actions[i])
      {
      }
    }
  }

  ghost predicate Closed(job: Job) {
    job.status.Success? || job.status.Failed?
  }

  /** Once a job is closed, no interleaving of checkins, reports, sweeps, finalise calls, cancels
      and reaps changes it; only its own worker can. */
  lemma {:induction false} ClosedJobsAreFrozen(s: State, steps: seq<Step>, j: nat)
    requires j < |s.jobs| && Closed(s.jobs[j])
    requires forall k :: 0 <= k < |steps| ==> OutsideWorker(steps[k])
    ensures j < |Run(s, steps).jobs| && Run(s, steps).jobs[j] == s.jobs[j]
    decreases |steps|
  {
    if steps != [] {
      assert OutsideWorker(steps[0]);
      ClosedJobsAreFrozen(Apply(s, steps[0]), steps[1..], j);
    }
  }

  /** The freeze does not extend to the job's worker: a job cancelled while pending runs again. */
  lemma CancelledPendingJobRunsAgain()
    ensures Run(INIT, [CreateJob, Cancel(0)]).jobs[0].status.Failed?
    ensures Run(INIT, [CreateJob, Cancel(0), StartAttempt(0, 1)]).jobs[0].status.Running?
  {
    var s1 := Apply(INIT, CreateJob);
    var s2 := Apply(s1, Cancel(0));
    var s3 := Apply(s2, StartAttempt(0, 1));
    RunAppend(INIT, [CreateJob], [Cancel(0)]);
    assert [CreateJob] + [Cancel(0)] == [CreateJob, Cancel(0)];
    RunAppend(INIT, [CreateJob, Cancel(0)], [StartAttempt(0, 1)]);
    assert [CreateJob, Cancel(0)] + [StartAttempt(0, 1)] == [CreateJob, Cancel(0), StartAttempt(0, 1)];
    assert Run(INIT, [CreateJob]) == s1;
    assert Run(s1, [Cancel(0)]) == s2;
    assert Run(s2, [StartAttempt(0, 1)]) == s3;
  }

  // ----- bounded closing -------------------------------------------------------------------------------

  /** No outstanding action is so old that a sweep at time `t` should have caught it. */
  ghost predicate Swept(s: State, t: nat) {
    && t <= s.now
    && (forall i :: 0 <= i < |s.actions| && Outstanding(s.actions[i]) ==> t <= s.actions[i].createdAt + STALE_AFTER)
  }

  lemma {:induction false} RunKeepsSwept(s: State, steps: seq<Step>, t: nat)
    requires WellFormed(s) && Swept(s, t)
    ensures Swept(Run(s, steps), t)
    decreases |steps|
  {
    if steps != [] {
      var s' := Apply(s, steps[0]);
      StepEvolves(s, steps[0]);
      forall i | 0 <= i < |s'.actions| && Outstanding(s'.actions[i])
        ensures t <= s'.actions[i].createdAt + STALE_AFTER
      {
        if i < |s.actions| {
          assert Arrow(s.actions[i], s'.actions[i]);
        }
      }
      RunKeepsSwept(s', steps[1..], t);
    }
  }

  /** Once a sweep has run at time t and no finalise call is in flight, no job whose latest attempt
      dispatched an action, and whose actions were all created before t minus thirty minutes, is
      still running, whatever ran before the sweep and since. */
  lemma BoundedClosing(before: seq<Step>, after: seq<Step>, j: nat)
    requires var s := Run(INIT, before + [Sweep] + after);
             && s.inFlight == multiset{}
             && j < |s.jobs| && Dispatched(s.jobs[j].worker) > 0
             && forall i :: 0 <= i < |s.actions| && s.actions[i].job == j ==>
                              s.actions[i].createdAt + STALE_AFTER < Run(INIT, before).now
    ensures !Run(INIT, before + [Sweep] + after).jobs[j].status.Running?
  {
    var s0 := Run(INIT, before);
    var s1 := Apply(s0, Sweep);
    var s := Run(INIT, before + [Sweep] + after);
    RunAppend(INIT, before, [Sweep]);
    assert Run(s0, [Sweep]) == s1;
    RunAppend(INIT, before + [Sweep], after);
    RunEvolves(INIT, before);
    StepEvolves(s0, Sweep);
    assert Swept(s1, s0.now);
    RunKeepsSwept(s1, after, s0.now);
    NoOrphanedRunningJob(before + [Sweep] + after, j);
  }

  /** The playbook's own outcome decides nothing exactly when the attempt also dispatched actions. */
  lemma MixedJobDropsSshStatus(s: State, j: nat)
    requires j < |s.jobs| && s.jobs[j].worker.Ssh?
    ensures FinishSsh(s, j, true) == FinishSsh(s, j, false) <==> s.jobs[j].worker.dispatched > 0
    ensures s.jobs[j].worker.dispatched > 0 ==> FinishSsh(s, j, false).jobs[j].status == s.jobs[j].status
  {
    if s.jobs[j].worker.dispatched == 0 {
      assert FinishSsh(s, j, true).jobs[j].status.Success? && FinishSsh(s, j, false).jobs[j].status.Failed?;
    }
  }

  lemma SameStepSameRun(s: State, a: Step, b: Step, after: seq<Step>)
    requires Apply(s, a) == Apply(s, b)
    ensures Run(s, [a] + after) == Run(s, [b] + after)
  {
    RunOne(s, a, after);
    RunOne(s, b, after);
  }

  /** So whatever runs before the playbook ends and whatever runs after it, the run of a mixed job is
      the same whether its playbook succeeded or failed. */
  lemma MixedJobRunsTheSame(before: seq<Step>, j: nat, after: seq<Step>)
    requires var s := Run(INIT, before); j < |s.jobs| && s.jobs[j].worker.Ssh? && s.jobs[j].worker.dispatched > 0
    ensures Run(INIT, before + ([SshDone(j, true)] + after)) == Run(INIT, before + ([SshDone(j, false)] + after))
  {
    RunAppend(INIT, before, [SshDone(j, true)] + after);
    RunAppend(INIT, before, [SshDone(j, false)] + after);
    MixedJobDropsSshStatus(Run(INIT, before), j);
    SameStepSameRun(Run(INIT, before), SshDone(j, true), SshDone(j, false), after);
  }

  /** Such a job can close as a success after its playbook has failed. */
  lemma FailedPlaybookSucceeds()
    ensures var s := Run(INIT, [CreateJob, StartAttempt(0, 1), Dispatch(0, [7], true)]
                               + [SshDone(0, false), Report(7, Some(0), OutcomeSuccess), Finalise(0)]);
            |s.jobs| == 1 && s.jobs[0].status.Success? && s.inFlight == multiset{}
  {
    var done := [SshDone(0, false), Report(7, Some(0), OutcomeSuccess), Finalise(0)];
    RunThree(INIT, CreateJob, StartAttempt(0, 1), Dispatch(0, [7], true), done);
    var s := Apply(Apply(Apply(INIT, CreateJob), StartAttempt(0, 1)), Dispatch(0, [7], true));
    assert s.jobs == [Job(Running, Some(1), Ssh(1))] && s.actions == [Action(7, 0, Queued, 0, None, None)];
    RunThree(s, SshDone(0, false), Report(7, Some(0), OutcomeSuccess), Finalise(0), []);
    assert done + [] == done;
    var s' := Apply(Apply(s, SshDone(0, false)), Report(7, Some(0), OutcomeSuccess));
    assert s'.actions[0].status.Succeeded? && s'.inFlight == multiset{0};
  }

  /** A covered running job can always be closed without its worker, by waiting, sweeping and
      letting one finalise call run. */
  lemma CoveredJobCanBeClosed(s: State, j: nat)
    requires WellFormed(s)
    requires j < |s.jobs| && s.jobs[j].status.Running? && Covered(s, j)
    ensures var s' := Run(s, [Tick(STALE_AFTER + 1), Sweep, Finalise(j)]);
            j < |s'.jobs| && Closed(s'.jobs[j])
  {
    var s1 := Apply(s, Tick(STALE_AFTER + 1));
    var s2 := Apply(s1, Sweep);
    var s3 := Apply(s2, Finalise(j));
    forall i | 0 <= i < |s.actions| ensures !Outstanding(s2.actions[i]) {
      assert WellFormedAction(s, s.actions[i]);
    }
    if HasOutstanding(s, j) {
      var i :| 0 <= i < |s.actions| && s.actions[i].job == j && Outstanding(s.actions[i]);
      assert WellFormedAction(s, s.actions[i]);
      assert Stale(s1.actions[i], s1.now);
      assert j in StaleJobs(s1.actions, s1.now);
    }
    assert j in s2.inFlight;
    assert Resolvable(s2.actions, j);
    assert Run(s3, []) == s3;
    assert Run(s2, [Finalise(j)]) == s3;
    assert [Sweep, Finalise(j)][1..] == [Finalise(j)];
    assert Run(s1, [Sweep, Finalise(j)]) == s3;
    assert [Tick(STALE_AFTER + 1), Sweep, Finalise(j)][1..] == [Sweep, Finalise(j)];
  }

  // ----- the empty dispatch ------------------------------------------------------------------------------

  ghost predicate Untouched(s: State, j: nat) {
    && j < |s.jobs| && s.jobs[j].status.Running? && j !in s.inFlight
    && forall i :: 0 <= i < |s.actions| ==> s.actions[i].job != j
  }

  /** A running job that nothing was dispatched for is left running by every sequence of ticks,
      checkins, reports, sweeps and finalise calls. */
  lemma {:induction false} NothingDispatchedHangs(s: State, steps: seq<Step>, j: nat)
    requires Untouched(s, j)
    requires forall k :: 0 <= k < |steps| ==> BeaconSide(steps[k])
    ensures Untouched(Run(s, steps), j)
    decreases |steps|
  {
    if steps != [] {
      assert BeaconSide(steps[0]);
      assert Untouched(Apply(s, steps[0]), j);
      NothingDispatchedHangs(Apply(s, steps[0]), steps[1..], j);
    }
  }

  /** Some sequence of ticks, checkins, reports, sweeps and finalise calls closes the job. */
  ghost predicate Closable(s: State, j: nat) {
    exists steps :: ClosedBy(s, j, steps)
  }

  ghost predicate ClosedBy(s: State, j: nat, steps: seq<Step>) {
    && (forall k :: 0 <= k < |steps| ==> BeaconSide(steps[k]))
    && j < |Run(s, steps).jobs| && Closed(Run(s, steps).jobs[j])
  }

  lemma CoveredIsClosable(s: State, j: nat)
    requires WellFormed(s) && j < |s.jobs| && s.jobs[j].status.Running? && Covered(s, j)
    ensures Closable(s, j)
  {
    CoveredJobCanBeClosed(s, j);
    assert ClosedBy(s, j, [Tick(STALE_AFTER + 1), Sweep, Finalise(j)]);
  }

  /** With every action resolved and no finalise call left, one more report of a resolved action owes
      the call that was missing. */
  lemma ReportedAgainCloses(s: State, j: nat, i: nat)
    requires j < |s.jobs| && s.jobs[j].status.Running? && !HasOutstanding(s, j)
    requires i < |s.actions| && s.actions[i].job == j
    ensures Closable(s, j)
  {
    var report := Report(s.actions[i].server, Some(i), OutcomeSuccess);
    var s' := Apply(s, report);
    RunTwo(s, report, Finalise(j));
    assert j in s'.inFlight && Resolvable(s'.actions, j);
    assert ClosedBy(s, j, [report, Finalise(j)]);
  }

  lemma UntouchedStaysOpen(s: State, j: nat)
    requires Untouched(s, j)
    ensures !Closable(s, j)
  {
    forall steps: seq<Step> ensures !ClosedBy(s, j, steps) {
      if forall k :: 0 <= k < |steps| ==> BeaconSide(steps[k]) {
        NothingDispatchedHangs(s, steps, j);
      }
    }
  }

  /** Beacons and the sweep can close a running job if and only if some attempt of it dispatched an
      action or a finalise call is still owed to it. */
  lemma ClosableIff(s: State, j: nat)
    requires WellFormed(s) && j < |s.jobs| && s.jobs[j].status.Running?
    ensures Closable(s, j) <==> !Untouched(s, j)
  {
    if Untouched(s, j) {
      UntouchedStaysOpen(s, j);
    } else if Covered(s, j) {
      CoveredIsClosable(s, j);
    } else {
      var i :| 0 <= i < |s.actions| && s.actions[i].job == j;
      ReportedAgainCloses(s, j, i);
    }
  }

  /** When an attempt, the first or a later one, parks its running job without SSH targets, beacons and
      the sweep can close the job afterwards if and only if this attempt had a target or an earlier
      one left an action or a call. */
  lemma ParkedJobClosesIffItHasTargets(s: State, j: nat, beacons: seq<nat>)
    requires WellFormed(s) && j < |s.jobs| && s.jobs[j].status.Running? && s.jobs[j].worker.Started?
    ensures var parked := DispatchJob(s, j, beacons, false);
            && parked.jobs[j].worker == Parked(|beacons|)
            && (Closable(parked, j) <==> beacons != [] || !Untouched(s, j))
  {
    var parked := DispatchJob(s, j, beacons, false);
    StepEvolves(s, Dispatch(j, beacons, false));
    ClosableIff(parked, j);
    if beacons != [] {
      DispatchCovers(s, j, beacons, false);
    } else {
      assert parked.actions == s.actions;
    }
  }

  /** The step is a report of an action of the job, by the action's own server. */
  predicate ReportsOn(actions: seq<Action>, step: Step, j: nat) {
    step.Report? && step.action.Some? && step.action.value < |actions|
    && actions[step.action.value].server == step.server && actions[step.action.value].job == j
  }

  ghost predicate SameOwners(actions: seq<Action>, actions': seq<Action>) {
    && |actions'| == |actions|
    && forall i :: 0 <= i < |actions| ==> actions'[i].server == actions[i].server && actions'[i].job == actions[i].job
  }

  lemma QuietStep(s: State, step: Step, j: nat)
    requires j < |s.jobs| && s.jobs[j].status.Running? && !Covered(s, j)
    requires BeaconSide(step) && !ReportsOn(s.actions, step, j)
    ensures var s' := Apply(s, step);
            && j < |s'.jobs| && s'.jobs[j].status.Running? && !Covered(s', j) && SameOwners(s.actions, s'.actions)
  {
    StepFollowsArrows(s, step);
  }

  /** Once nothing is outstanding and no call is owed, nothing but another report of one of its actions
      moves a running job. */
  lemma {:induction false} OnlyAReportMoves(s: State, steps: seq<Step>, j: nat)
    requires j < |s.jobs| && s.jobs[j].status.Running? && !Covered(s, j)
    requires forall k :: 0 <= k < |steps| ==> BeaconSide(steps[k]) && !ReportsOn(s.actions, steps[k], j)
    ensures j < |Run(s, steps).jobs| && Run(s, steps).jobs[j].status.Running? && !Covered(Run(s, steps), j)
    decreases |steps|
  {
    if steps != [] {
      QuietStep(s, steps[0], j);
      OnlyAReportMoves(Apply(s, steps[0]), steps[1..], j);
    }
  }

  /** The first attempt dispatches an action, which is reported; then its hosts are unreachable. */
  const TO_RETRY :=
    [CreateJob, StartAttempt(0, 1), Dispatch(0, [7], true)]
    + [Report(7, Some(0), OutcomeSuccess), Finalise(0), Unreachable(0, false)]

  const RETRYING := State(0, [Job(JobStatus.Success, Some(1), Retrying(1))],
                          [Action(7, 0, Succeeded, 0, None, Some(0))], multiset{})

  lemma RetryExample()
    ensures Run(INIT, TO_RETRY) == RETRYING
  {
    var rest := [Report(7, Some(0), OutcomeSuccess), Finalise(0), Unreachable(0, false)];
    RunThree(INIT, CreateJob, StartAttempt(0, 1), Dispatch(0, [7], true), rest);
    var s := State(0, [Job(Running, Some(1), Ssh(1))], [Action(7, 0, Queued, 0, None, None)], multiset{});
    assert Apply(Apply(Apply(INIT, CreateJob), StartAttempt(0, 1)), Dispatch(0, [7], true)) == s;
    FirstAttemptEnds(s);
    RunThree(s, Report(7, Some(0), OutcomeSuccess), Finalise(0), Unreachable(0, false), []);
    assert rest + [] == rest;
  }

  lemma FirstAttemptEnds(s: State)
    requires s == State(0, [Job(Running, Some(1), Ssh(1))], [Action(7, 0, Queued, 0, None, None)], multiset{})
    ensures Apply(Apply(Apply(s, Report(7, Some(0), OutcomeSuccess)), Finalise(0)), Unreachable(0, false)) == RETRYING
  {
    var s' := Apply(s, Report(7, Some(0), OutcomeSuccess));
    assert s'.actions == RETRYING.actions && s'.inFlight == multiset{0};
    assert Resolvable(s'.actions, 0) && !AnyUnsuccessful(s'.actions, 0);
    assert s'.inFlight - multiset{0} == multiset{};
  }

  /** The second attempt finds no target and parks. Nothing is outstanding or owed, and the job is
      running all the same; what can still close it is another report of the old action. */
  lemma RetriedJobExample()
    ensures var s := Run(INIT, TO_RETRY + [StartAttempt(0, 2), Dispatch(0, [], false)]);
            && |s.jobs| == 1 && s.jobs[0].status.Running? && s.jobs[0].worker == Parked(0)
            && !Covered(s, 0) && !Untouched(s, 0) && Closable(s, 0)
  {
    RetryExample();
    RunAppend(INIT, TO_RETRY, [StartAttempt(0, 2), Dispatch(0, [], false)]);
    RunTwo(RETRYING, StartAttempt(0, 2), Dispatch(0, [], false));
    var s := State(0, [Job(Running, Some(2), Parked(0))], RETRYING.actions, multiset{});
    assert Apply(Apply(RETRYING, StartAttempt(0, 2)), Dispatch(0, [], false)) == s;
    assert s.actions[0].job == 0;
    ReportedAgainCloses(s, 0, 0);
  }

  /** An attempt without any target is reachable: an apply-updates job for an environment without servers. */
  lemma EmptyEnvironmentHangs()
    ensures Untouched(Run(INIT, [CreateJob, StartAttempt(0, 1), Dispatch(0, [], false)]), 0)
  {
    var s1 := Apply(INIT, CreateJob);
    var s2 := Apply(s1, StartAttempt(0, 1));
    var s3 := Apply(s2, Dispatch(0, [], false));
    assert [StartAttempt(0, 1), Dispatch(0, [], false)][1..] == [Dispatch(0, [], false)];
    assert [CreateJob, StartAttempt(0, 1), Dispatch(0, [], false)][1..] == [StartAttempt(0, 1), Dispatch(0, [], false)];
    assert Run(s3, []) == s3;
    assert Run(s2, [Dispatch(0, [], false)]) == s3;
    assert Run(s1, [StartAttempt(0, 1), Dispatch(0, [], false)]) == s3;
  }
}
