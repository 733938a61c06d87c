/** The rows a job and its beacon actions are kept in, and every commit that changes them
    (app/tasks.py, app/routers/beacon.py, app/routers/jobs.py, app/main.py), one function a commit. */
module JobProtocol {

  import opened Options

  datatype JobStatus = Pending | Running | Success | Failed

  datatype ActionStatus = Queued | Delivered | Succeeded | Rejected | Cancelled | TimedOut

  datatype Outcome = OutcomeSuccess | OutcomeFailed | OutcomeNoChange

  /** Where the Celery worker of a job stands; `dispatched` counts the beacon actions that its
      latest attempt committed. */
  datatype Worker =
    | Unstarted                   // queued, no worker has picked the job up
    | Started                     // status is running, the work function has not begun
    | Ssh(dispatched: nat)        // the actions are committed and the playbook is running
    | Retrying(dispatched: nat)   // hosts unreachable, Celery will deliver it again
    | Parked(dispatched: nat)     // returned "pending_beacon"
    | Closed                      // the worker marked the job itself
    | Dead(dispatched: nat)       // the process was killed

  datatype Job = Job(status: JobStatus, task: Option<nat>, worker: Worker)

  datatype Action = Action(
    server: nat,
    job: nat,
    status: ActionStatus,
    createdAt: nat,
    deliveredAt: Option<nat>,
    resolvedAt: Option<nat>)

  /** Rows are never deleted, so a row's id is its index. `inFlight` holds the calls of
      _finalize_job_if_resolvable that a committed report or sweep still owes. */
  datatype State = State(now: nat, jobs: seq<Job>, actions: seq<Action>, inFlight: multiset<nat>)

  const INIT := State(0, [], [], multiset{})

  // The sweep's thirty minutes, in seconds.
  const STALE_AFTER := 1800

  datatype Step =
    | Tick(seconds: nat)
    | CreateJob
    | StartAttempt(job: nat, task: nat)
    | LockContention(job: nat)
    | Dispatch(job: nat, beacons: seq<nat>, hasSsh: bool)
    | SshDone(job: nat, ok: bool)
    | Unreachable(job: nat, lastAttempt: bool)
    | WorkerError(job: nat)
    | WorkerDies(job: nat)
    | Checkin(server: nat)
    | Report(server: nat, action: Option<nat>, outcome: Outcome)
    | Sweep
    | Finalise(job: nat)
    | Cancel(job: nat)
    | Reap(active: set<nat>)

  // ----- rows ------------------------------------------------------------------------------

  predicate Outstanding(a: Action) {
    a.status.Queued? || a.status.Delivered?
  }

  predicate Unsuccessful(a: Action) {
    a.status.Rejected? || a.status.TimedOut?
  }

  /** How many actions the latest attempt of this worker committed. */
  function Dispatched(w: Worker): nat {
    match w
    case Unstarted => 0
    case Started => 0
    case Ssh(n) => n
    case Retrying(n) => n
    case Parked(n) => n
    case Closed => 0
    case Dead(n) => n
  }

  predicate Resolvable(actions: seq<Action>, j: nat) {
    forall i | 0 <= i < |actions| :: actions[i].job == j ==> !Outstanding(actions[i])
  }

  predicate AnyUnsuccessful(actions: seq<Action>, j: nat) {
    exists i | 0 <= i < |actions| :: actions[i].job == j && Unsuccessful(actions[i])
  }

  predicate Stale(a: Action, now: nat) {
    Outstanding(a) && a.createdAt + STALE_AFTER < now
  }

  // ----- commits of the worker ---------------------------------------------------------------

  function StartJob(s: State, j: nat, task: nat): State {
    if j < |s.jobs| && (s.jobs[j].worker.Unstarted? || s.jobs[j].worker.Retrying?) then
      s.(jobs := s.jobs[j := Job(Running, Some(task), Started)])
    else s
  }

  function CloseByWorker(s: State, j: nat, status: JobStatus): State
    requires j < |s.jobs|
  {
    s.(jobs := s.jobs[j := s.jobs[j].(status := status, worker := Closed)])
  }

  function MoveWorker(s: State, j: nat, w: Worker): State
    requires j < |s.jobs|
  {
    s.(jobs := s.jobs[j := s.jobs[j].(worker := w)])
  }

  function ContendedJob(s: State, j: nat): State {
    if j < |s.jobs| && s.jobs[j].worker.Started? then CloseByWorker(s, j, JobStatus.Failed) else s
  }

  function NewActions(j: nat, beacons: seq<nat>, now: nat): seq<Action> {
    seq(|beacons|, i requires 0 <= i < |beacons| => Action(beacons[i], j, Queued, now, None, None))
  }

  function DispatchJob(s: State, j: nat, beacons: seq<nat>, hasSsh: bool): State {
    if j < |s.jobs| && s.jobs[j].worker.Started? then
      var s' := s.(actions := s.actions + NewActions(j, beacons, s.now));
      MoveWorker(s', j, if hasSsh then Ssh(|beacons|) else Parked(|beacons|))
    else s
  }

  function FinishSsh(s: State, j: nat, ok: bool): State {
    if j < |s.jobs| && s.jobs[j].worker.Ssh? then
      if s.jobs[j].worker.dispatched > 0 then MoveWorker(s, j, Parked(s.jobs[j].worker.dispatched))
      else CloseByWorker(s, j, if ok then JobStatus.Success else JobStatus.Failed)
    else s
  }

  function UnreachableHosts(s: State, j: nat, lastAttempt: bool): State {
    if j < |s.jobs| && s.jobs[j].worker.Ssh? then
      if lastAttempt then CloseByWorker(s, j, JobStatus.Failed)
      else MoveWorker(s, j, Retrying(s.jobs[j].worker.dispatched))
    else s
  }

  function FailByException(s: State, j: nat): State {
    if j < |s.jobs| && (s.jobs[j].worker.Started? || s.jobs[j].worker.Ssh?) then
      CloseByWorker(s, j, JobStatus.Failed)
    else s
  }

  function KillWorker(s: State, j: nat): State {
    if j < |s.jobs| && (s.jobs[j].worker.Started? || s.jobs[j].worker.Ssh? || s.jobs[j].worker.Retrying?) then
      MoveWorker(s, j, Dead(Dispatched(s.jobs[j].worker)))
    else s
  }

  // ----- commits of beacons, the sweep, operators and the reaper -----------------------------

  function Deliver(a: Action, server: nat, now: nat): Action {
    if a.server == server && a.status.Queued? then a.(status := Delivered, deliveredAt := Some(now)) else a
  }

  function CheckinServer(s: State, server: nat): State {
    s.(actions := seq(|s.actions|, i requires 0 <= i < |s.actions| => Deliver(s.actions[i], server, s.now)))
  }

  predicate OwnAction(s: State, server: nat, action: Option<nat>) {
    action.Some? && action.value < |s.actions| && s.actions[action.value].server == server
  }

  function ReportOutcome(s: State, server: nat, action: Option<nat>, outcome: Outcome): State {
    if OwnAction(s, server, action) then
      var a := s.actions[action.value];
      var status := if outcome.OutcomeSuccess? then Succeeded else Rejected;
      s.(actions := s.actions[action.value := a.(status := status, resolvedAt := Some(s.now))],
         inFlight := s.inFlight + multiset{a.job})
    else s
  }

  function TimeOut(a: Action, now: nat): Action {
    if Stale(a, now) then a.(status := TimedOut, resolvedAt := Some(now)) else a
  }

  function StaleJobs(actions: seq<Action>, now: nat): set<nat> {
    set i | 0 <= i < |actions| && Stale(actions[i], now) :: actions[i].job
  }

  function SweepStale(s: State): State {
    s.(actions := seq(|s.actions|, i requires 0 <= i < |s.actions| => TimeOut(s.actions[i], s.now)),
       inFlight := s.inFlight + multiset(StaleJobs(s.actions, s.now)))
  }

  function FinaliseJob(s: State, j: nat): State {
    if j !in s.inFlight then s else
      var s' := s.(inFlight := s.inFlight - multiset{j});
      if j < |s.jobs| && s.jobs[j].status.Running? && Resolvable(s.actions, j) then
        var verdict := if AnyUnsuccessful(s.actions, j) then JobStatus.Failed else JobStatus.Success;
        s'.(jobs := s.jobs[j := s.jobs[j].(status := verdict)])
      else s'
  }

  function Withdraw(a: Action, j: nat, now: nat): Action {
    if a.job == j && a.status.Queued? then a.(status := Cancelled, resolvedAt := Some(now)) else a
  }

  function CancelJob(s: State, j: nat): State {
    if j < |s.jobs| && (s.jobs[j].status.Pending? || s.jobs[j].status.Running?) then
      s.(actions := seq(|s.actions|, i requires 0 <= i < |s.actions| => Withdraw(s.actions[i], j, s.now)),
         jobs := s.jobs[j := s.jobs[j].(status := JobStatus.Failed)])
    else s
  }

  function ReapJob(job: Job, active: set<nat>): Job {
    if job.status.Running? && (job.task.None? || job.task.value !in active) then job.(status := JobStatus.Failed)
    else job
  }

  function ReapJobs(s: State, active: set<nat>): State {
    s.(jobs := seq(|s.jobs|, j requires 0 <= j < |s.jobs| => ReapJob(s.jobs[j], active)))
  }

  // ----- runs ----------------------------------------------------------------------------------

  /** One commit; a step that the state does not allow changes nothing. */
  function Apply(s: State, step: Step): State {
    match step
    case Tick(seconds) => s.(now := s.now + seconds)
    case CreateJob => s.(jobs := s.jobs + [Job(Pending, None, Unstarted)])
    case StartAttempt(j, task) => StartJob(s, j, task)
    case LockContention(j) => ContendedJob(s, j)
    case Dispatch(j, beacons, hasSsh) => DispatchJob(s, j, beacons, hasSsh)
    case SshDone(j, ok) => FinishSsh(s, j, ok)
    case Unreachable(j, lastAttempt) => UnreachableHosts(s, j, lastAttempt)
    case WorkerError(j) => FailByException(s, j)
    case WorkerDies(j) => KillWorker(s, j)
    case Checkin(server) => CheckinServer(s, server)
    case Report(server, action, outcome) => ReportOutcome(s, server, action, outcome)
    case Sweep => SweepStale(s)
    case Finalise(j) => FinaliseJob(s, j)
    case Cancel(j) => CancelJob(s, j)
    case Reap(active) => ReapJobs(s, active)
  }

  /** Any interleaving of the actors is a sequence of commits. */
  function Run(s: State, steps: seq<Step>): State
    decreases |steps|
  {
    if steps == [] then s else Run(Apply(s, steps[0]), steps[1..])
  }

  /** Steps that are not taken by the job's own worker, nor by its creation. */
  predicate OutsideWorker(step: Step) {
    step.Tick? || step.Checkin? || step.Report? || step.Sweep? || step.Finalise? || step.Cancel? || step.Reap?
  }

  /** The steps that resolve beacon work in the ordinary course: no operator, no restart. */
  predicate BeaconSide(step: Step) {
    step.Tick? || step.Checkin? || step.Report? || step.Sweep? || step.Finalise?
  }
}
