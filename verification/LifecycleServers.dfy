/** What a server's config serial means, over every run whose servers report only what they were told. */
module LifecycleServers {
  import opened Options
  import opened AptlyServer
  import opened Lifecycle
  import opened LifecycleFence
  import opened LifecycleRuns

  /** A successful report names a serial that a checkin of that server was answered with. */
  predicate HonestReport(s: State, step: ServerStep) {
    step.Report? && step.applied ==> WasIssued(s.issued, step.server, step.serial)
  }

  predicate Honest(s: State, step: Step) {
    step.OfServer? ==> HonestReport(s, step.serverStep)
  }

  predicate HonestAt(states: seq<State>, steps: seq<Step>, i: nat)
    requires |states| == |steps| + 1 && i < |steps|
  {
    Honest(states[i], steps[i])
  }

  ghost predicate HonestTrace(states: seq<State>, steps: seq<Step>) {
    Trace(states, steps) && forall i :: 0 <= i < |steps| ==> HonestAt(states, steps, i)
  }

  /** Reachable by a run in which every report is honest. */
  ghost predicate HonestlyReachable(s: State) {
    exists states, steps :: HonestTrace(states, steps) && states[|steps|] == s
  }

  lemma HonestIsReachable(s: State)
    requires HonestlyReachable(s)
    ensures Reachable(s)
  {
    var states, steps :| HonestTrace(states, steps) && states[|steps|] == s;
  }

  lemma InitHonest(matcher: Matcher)
    ensures HonestlyReachable(Init(matcher))
  {
    assert Trace([Init(matcher)], []);
    assert HonestTrace([Init(matcher)], []);
  }

  lemma StepHonest(s: State, step: Step)
    requires HonestlyReachable(s) && Honest(s, step)
    ensures HonestlyReachable(Apply(s, step))
  {
    var states, steps :| HonestTrace(states, steps) && states[|steps|] == s;
    var states', steps' := states + [Apply(s, step)], steps + [step];
    forall i | 0 <= i < |steps'| ensures Taken(states', steps', i) && HonestAt(states', steps', i) {
      if i < |steps| {
        assert Taken(states, steps, i) && HonestAt(states, steps, i);
      }
    }
    assert Trace(states', steps') && states'[|steps'|] == Apply(s, step);
  }

  // ----- serials only grow -----------------------------------------------------------------------------------------

  /** No server is lost, no beacon is lost, and no serial goes back. */
  ghost predicate SerialsGrow(servers: map<nat, Server>, servers': map<nat, Server>) {
    forall x :: x in servers ==> x in servers' && Advances(servers[x], servers'[x])
  }

  lemma BumpedServersGrow(servers: map<nat, Server>, environment: nat)
    ensures SerialsGrow(servers, BumpServers(servers, environment))
    ensures SameApplied(servers, BumpServers(servers, environment))
  {
  }

  lemma AssignmentStepServers(s: State, step: AssignmentStep)
    ensures var s' := ApplyAssignment(s, step);
            s'.issued == s.issued && (s'.servers == s.servers || exists e :: s'.servers == BumpServers(s.servers, e))
  {
    match step
    case Assign(p, version, refused) =>
      if Assignable(s, p, version) && !refused && Promoted(s, NewAssignment(s, p, version)).Some? {
      }
    case Promote(p, version, refused) =>
      if Promotable(s, p, version) && !refused && Promoted(s, s.assignments[p].(current := version)).Some? {
      }
    case Rollback(p, version, refused) =>
      if RollbackAccepts(s, p, version) && !refused && Switched(s, s.assignments[p].(current := version)).Some? {
      }
    case Unassign(_) =>
    case PurgeAudit(_) =>
  }

  lemma AssignmentStepGrows(s: State, step: AssignmentStep)
    ensures var s' := ApplyAssignment(s, step);
            s'.issued == s.issued && SerialsGrow(s.servers, s'.servers) && SameApplied(s.servers, s'.servers)
  {
    AssignmentStepServers(s, step);
    var servers' := ApplyAssignment(s, step).servers;
    if e :| servers' == BumpServers(s.servers, e) {
      BumpedServersGrow(s.servers, e);
    }
  }

  lemma ServerChangeGrows(servers: map<nat, Server>, x: nat, y: Server)
    requires x in servers ==> Advances(servers[x], y)
    ensures SerialsGrow(servers, servers[x := y])
  {
  }

  lemma ServerStepGrows(s: State, step: ServerStep)
    requires forall x :: x in s.servers ==> x < s.nextId
    ensures SerialsGrow(s.servers, ApplyServer(s, step).servers)
  {
    match step
    case AddServer(environment) =>
      if environment in s.environments {
        ServerChangeGrows(s.servers, s.nextId, Server(environment, true, None));
      }
    case Decommission(x) =>
      if x in s.servers {
        ServerChangeGrows(s.servers, x, s.servers[x].(active := false));
      }
    case Reassign(x, environment) =>
      if Authentic(s, x) && environment in s.environments && s.servers[x].environment != environment {
        ServerChangeGrows(s.servers, x, Bumped(s.servers[x], s.servers[x].environment).(environment := environment));
      }
    case PushFacts(x) =>
      if Authentic(s, x) {
        ServerChangeGrows(s.servers, x, WithBeacon(s.servers[x]));
      }
    case Checkin(x) =>
      if Answered(s, x) {
        ServerChangeGrows(s.servers, x, WithBeacon(s.servers[x]));
      }
    case Report(x, serial, applied) =>
      if Authentic(s, x) {
        ServerChangeGrows(s.servers, x, Reported(s.servers[x], serial, applied));
      }
  }

  lemma SameServersGrow(s: State, s': State)
    requires SameServers(s, s')
    ensures SerialsGrow(s.servers, s'.servers) && (AppliedOk(s.issued, s.servers) ==> AppliedOk(s'.issued, s'.servers))
  {
  }

  /** Config serials never decrease, and a server that moves to another environment gets a new one. */
  lemma SerialsNeverDecrease(s: State, step: Step)
    requires Inv(s)
    ensures SerialsGrow(s.servers, Apply(s, step).servers)
  {
    match step
    case OfRepository(r) =>
      RepositoryStepMoves(s, r);
      SameServersGrow(s, ApplyRepository(s, r));
    case OfView(v) =>
      ViewStepMoves(s, v);
      SameServersGrow(s, ApplyView(s, v));
    case OfVersion(v) =>
      VersionStepMoves(s, v);
      SameServersGrow(s, ApplyVersion(s, v));
    case OfEnvironment(e) =>
      EnvironmentStepMoves(s, e);
      SameServersGrow(s, ApplyEnvironment(s, e));
    case OfAssignment(a) => AssignmentStepGrows(s, a);
    case OfServer(x) => ServerStepGrows(s, x);
    case Tick(_) =>
  }

  // ----- only what was issued is applied -----------------------------------------------------------------------------

  lemma SameAppliedOk(issued: seq<Issue>, servers: map<nat, Server>, servers': map<nat, Server>)
    requires AppliedOk(issued, servers) && SameApplied(servers, servers')
    ensures AppliedOk(issued, servers')
  {
    forall x | x in servers' && servers'[x].beacon.Some? && servers'[x].beacon.value.applied.Some?
      ensures WasIssued(issued, x, servers'[x].beacon.value.applied.value)
    {
      assert servers[x].beacon.value.applied == servers'[x].beacon.value.applied;
    }
  }

  lemma ServerChangeApplied(s: State, x: nat, y: Server)
    requires AppliedOk(s.issued, s.servers)
    requires y.beacon.Some? && y.beacon.value.applied.Some? ==> WasIssued(s.issued, x, y.beacon.value.applied.value)
    ensures AppliedOk(s.issued, s.servers[x := y])
  {
  }

  lemma ServerStepApplied(s: State, step: ServerStep)
    requires AppliedOk(s.issued, s.servers) && HonestReport(s, step)
    ensures var s' := ApplyServer(s, step); AppliedOk(s'.issued, s'.servers)
  {
    match step
    case AddServer(environment) =>
      if environment in s.environments {
        ServerChangeApplied(s, s.nextId, Server(environment, true, None));
      }
    case Decommission(x) =>
      if x in s.servers {
        ServerChangeApplied(s, x, s.servers[x].(active := false));
      }
    case Reassign(x, environment) =>
      if Authentic(s, x) && environment in s.environments && s.servers[x].environment != environment {
        ServerChangeApplied(s, x, Bumped(s.servers[x], s.servers[x].environment).(environment := environment));
      }
    case PushFacts(x) =>
      if Authentic(s, x) {
        ServerChangeApplied(s, x, WithBeacon(s.servers[x]));
      }
    case Checkin(x) =>
      if Answered(s, x) {
        MoreIssued(s.issued, DoCheckin(s, x).issued[|s.issued|], s.servers, DoCheckin(s, x).servers);
      }
    case Report(x, serial, applied) =>
      if Authentic(s, x) {
        ServerChangeApplied(s, x, Reported(s.servers[x], serial, applied));
      }
  }

  lemma StepKeepsApplied(s: State, step: Step)
    requires Inv(s) && AppliedOk(s.issued, s.servers) && Honest(s, step)
    ensures var s' := Apply(s, step); AppliedOk(s'.issued, s'.servers)
  {
    match step
    case OfRepository(r) =>
      RepositoryStepMoves(s, r);
      SameServersGrow(s, ApplyRepository(s, r));
    case OfView(v) =>
      ViewStepMoves(s, v);
      SameServersGrow(s, ApplyView(s, v));
    case OfVersion(v) =>
      VersionStepMoves(s, v);
      SameServersGrow(s, ApplyVersion(s, v));
    case OfEnvironment(e) =>
      EnvironmentStepMoves(s, e);
      SameServersGrow(s, ApplyEnvironment(s, e));
    case OfAssignment(a) =>
      AssignmentStepGrows(s, a);
      SameAppliedOk(s.issued, s.servers, ApplyAssignment(s, a).servers);
    case OfServer(x) => ServerStepApplied(s, x);
    case Tick(_) =>
  }

  lemma TakenApplied(states: seq<State>, steps: seq<Step>, i: nat)
    requires HonestTrace(states, steps) && i < |steps|
    requires Inv(states[i]) && AppliedOk(states[i].issued, states[i].servers)
    ensures AppliedOk(states[i + 1].issued, states[i + 1].servers)
  {
    assert Taken(states, steps, i) && HonestAt(states, steps, i);
    StepKeepsApplied(states[i], steps[i]);
  }

  lemma {:induction false} TraceApplied(states: seq<State>, steps: seq<Step>, i: nat)
    requires HonestTrace(states, steps) && i <= |steps|
    ensures AppliedOk(states[i].issued, states[i].servers)
    decreases i
  {
    if i == 0 {
      assert states[0].servers == map[];
    } else {
      TraceApplied(states, steps, i - 1);
      TraceKeeps(states, steps, i - 1);
      TakenApplied(states, steps, i - 1);
    }
  }

  lemma OnlyIssuedIsApplied(s: State)
    requires HonestlyReachable(s)
    ensures AppliedOk(s.issued, s.servers) && Inv(s)
  {
    var states, steps :| HonestTrace(states, steps) && states[|steps|] == s;
    TraceApplied(states, steps, |steps|);
    TraceKeeps(states, steps, |steps|);
  }

  // ----- the fence -----------------------------------------------------------------------------------------------

  predicate Reconciled(s: State, x: nat) {
    x in s.servers && s.servers[x].beacon.Some?
    && s.servers[x].beacon.value.applied == Some(s.servers[x].beacon.value.serial)
  }

  /** If a server's applied serial is its current one, then a checkin handed it out, and since every
      checkin that did, the server has not changed environment and each pair assigned there now was
      assigned there then, with the same live version. */
  lemma AppliedMeansCurrent(s: State, x: nat)
    requires HonestlyReachable(s) && Reconciled(s, x)
    ensures WasIssued(s.issued, x, s.servers[x].beacon.value.serial)
    ensures forall i ::
              0 <= i < |s.issued| && s.issued[i].server == x
              && s.issued[i].serial == s.servers[x].beacon.value.serial ==>
              StillTrue(s.issued[i], s.servers[x], s.assignments)
  {
    OnlyIssuedIsApplied(s);
    FenceHolds(s, x);
  }

  lemma FenceHolds(s: State, x: nat)
    requires FenceOk(s.issued, s.servers, s.assignments) && AppliedOk(s.issued, s.servers) && Reconciled(s, x)
    ensures WasIssued(s.issued, x, s.servers[x].beacon.value.serial)
    ensures forall i ::
              0 <= i < |s.issued| && s.issued[i].server == x
              && s.issued[i].serial == s.servers[x].beacon.value.serial ==>
              StillTrue(s.issued[i], s.servers[x], s.assignments)
  {
    forall i | 0 <= i < |s.issued| && s.issued[i].server == x && s.issued[i].serial == s.servers[x].beacon.value.serial
      ensures StillTrue(s.issued[i], s.servers[x], s.assignments)
    {
      assert IssueOk(s.issued[i], s.servers, s.assignments);
    }
  }

  /** And an applied serial is never ahead of the current one. */
  lemma AppliedAtMostCurrent(s: State, x: nat)
    requires HonestlyReachable(s) && x in s.servers && s.servers[x].beacon.Some?
    ensures var b := s.servers[x].beacon.value; b.applied.Some? ==> b.applied.value <= b.serial
  {
    OnlyIssuedIsApplied(s);
    AppliedIsOld(s, x);
  }

  lemma AppliedIsOld(s: State, x: nat)
    requires FenceOk(s.issued, s.servers, s.assignments) && AppliedOk(s.issued, s.servers)
    requires x in s.servers && s.servers[x].beacon.Some?
    ensures var b := s.servers[x].beacon.value; b.applied.Some? ==> b.applied.value <= b.serial
  {
    var b := s.servers[x].beacon.value;
    if b.applied.Some? {
      var i :| 0 <= i < |s.issued| && s.issued[i].server == x && s.issued[i].serial == b.applied.value;
      assert IssueOk(s.issued[i], s.servers, s.assignments);
    }
  }

  /** The converse stops at unassigning, which bumps no serial: what the current serial was handed out
      with is all that is live exactly if none of it has been unassigned since. */
  lemma FenceIsExact(s: State, i: nat)
    requires Reachable(s) && i < |s.issued|
    requires s.issued[i].server in s.servers && s.servers[s.issued[i].server].beacon.Some?
    requires s.issued[i].serial == s.servers[s.issued[i].server].beacon.value.serial
    ensures s.issued[i].live == LiveIn(s.assignments, s.issued[i].environment) <==>
              s.issued[i].live.Keys <= s.assignments.Keys
  {
    EveryRunKeeps(s);
    assert IssueOk(s.issued[i], s.servers, s.assignments);
    IssueIsExact(s, i);
  }

  lemma IssueIsExact(s: State, i: nat)
    requires i < |s.issued| && IssueOk(s.issued[i], s.servers, s.assignments)
    requires s.issued[i].serial == s.servers[s.issued[i].server].beacon.value.serial
    ensures s.issued[i].live == LiveIn(s.assignments, s.issued[i].environment) <==>
              s.issued[i].live.Keys <= s.assignments.Keys
  {
    var issue := s.issued[i];
    if issue.live.Keys <= s.assignments.Keys {
      forall p | p in issue.live
        ensures p in LiveIn(s.assignments, issue.environment) && issue.live[p] == s.assignments[p]
      {
        assert p in s.assignments.Keys;
      }
    } else {
      var p :| p in issue.live.Keys && p !in s.assignments.Keys;
      assert p !in LiveIn(s.assignments, issue.environment);
    }
  }

  lemma UnassignPassesTheFence(s: State, p: Pair, x: nat)
    requires p in s.assignments && Reconciled(s, x) && s.servers[x].environment == p.0
    ensures Reconciled(DoUnassign(s, p), x)
    ensures LiveIn(DoUnassign(s, p).assignments, p.0) != LiveIn(s.assignments, p.0)
  {
    assert p in LiveIn(s.assignments, p.0);
  }

  // ----- no checkin without an environment ----------------------------------------------------------------------

  ghost predicate Housed(s: State) {
    forall x :: x in s.servers ==> s.servers[x].environment in s.environments
  }

  lemma SameServersHoused(s: State, s': State)
    requires Housed(s) && s'.servers == s.servers && s'.environments == s.environments
    ensures Housed(s')
  {
  }

  lemma EnvironmentStepHoused(s: State, step: EnvironmentStep)
    requires Housed(s)
    ensures Housed(ApplyEnvironment(s, step))
  {
    match step
    case CreateEnvironment(name) =>
      if NewEnvironment(s, name) {
      }
    case DeleteEnvironment(environment) =>
      if Idle(s, environment) {
      }
  }

  lemma BumpedHoused(s: State, s': State, environment: nat)
    requires Housed(s) && s'.environments == s.environments && s'.servers == BumpServers(s.servers, environment)
    ensures Housed(s')
  {
  }

  lemma AssignmentStepHoused(s: State, step: AssignmentStep)
    requires Inv(s) && Housed(s)
    ensures Housed(ApplyAssignment(s, step))
  {
    var s' := ApplyAssignment(s, step);
    AssignmentStepServers(s, step);
    AssignmentStepMoves(s, step);
    if e :| s'.servers == BumpServers(s.servers, e) {
      BumpedHoused(s, s', e);
    } else {
      SameServersHoused(s, s');
    }
  }

  lemma ServerStepHoused(s: State, step: ServerStep)
    requires Housed(s)
    ensures Housed(ApplyServer(s, step))
  {
    match step
    case AddServer(environment) =>
      if environment in s.environments {
      }
    case Decommission(x) =>
      if x in s.servers {
      }
    case Reassign(x, environment) =>
      if Authentic(s, x) && environment in s.environments && s.servers[x].environment != environment {
      }
    case PushFacts(x) =>
      if Authentic(s, x) {
      }
    case Checkin(x) =>
      if Answered(s, x) {
      }
    case Report(x, _, _) =>
      if Authentic(s, x) {
      }
  }

  lemma StepKeepsHoused(s: State, step: Step)
    requires Inv(s) && Housed(s)
    ensures Housed(Apply(s, step))
  {
    match step
    case OfRepository(r) =>
      RepositoryStepMoves(s, r);
      SameServersHoused(s, ApplyRepository(s, r));
    case OfView(v) =>
      ViewStepMoves(s, v);
      SameServersHoused(s, ApplyView(s, v));
    case OfVersion(v) =>
      VersionStepMoves(s, v);
      SameServersHoused(s, ApplyVersion(s, v));
    case OfEnvironment(e) => EnvironmentStepHoused(s, e);
    case OfAssignment(a) => AssignmentStepHoused(s, a);
    case OfServer(x) => ServerStepHoused(s, x);
    case Tick(_) =>
  }

  lemma TakenHoused(states: seq<State>, steps: seq<Step>, i: nat)
    requires Trace(states, steps) && i < |steps| && Inv(states[i]) && Housed(states[i])
    ensures Housed(states[i + 1])
  {
    assert Taken(states, steps, i);
    StepKeepsHoused(states[i], steps[i]);
  }

  lemma {:induction false} TraceHoused(states: seq<State>, steps: seq<Step>, i: nat)
    requires Trace(states, steps) && i <= |steps|
    ensures Housed(states[i])
    decreases i
  {
    if i == 0 {
      assert states[0].servers == map[];
    } else {
      TraceHoused(states, steps, i - 1);
      TraceKeeps(states, steps, i - 1);
      TakenHoused(states, steps, i - 1);
    }
  }

  /** Environments are deleted for good, but never one that a server is in: a checkin never meets the
      missing environment that the handler guards against. */
  lemma EveryCheckinIsAnswered(s: State, x: nat)
    requires Reachable(s)
    ensures Answered(s, x) <==> Authentic(s, x)
  {
    var states, steps :| Trace(states, steps) && states[|steps|] == s;
    TraceHoused(states, steps, |steps|);
  }
}
