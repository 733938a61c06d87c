/** A repository whose update failed between deleting its mirror and creating it again never gets a
    mirror back: every later request on it needs the mirror that is gone. */
module LifecycleMirrors {
  import opened ContentHash
  import opened AptlyServer
  import opened Cut
  import opened CutProofs
  import opened Lifecycle
  import opened LifecycleCatalog
  import opened LifecycleSnapshots
  import opened LifecycleRuns

  predicate Stuck(s: State, name: string) {
    name in s.repositories && name !in s.aptly.mirrors
  }

  lemma HalfUpdateSticks(s: State, r: Repository)
    requires Replaceable(s, r.name)
    ensures Stuck(DoUpdateRepository(s, r, 1), r.name)
  {
  }

  /** The repository can then be neither changed, deleted, synced nor created anew, whatever else is there. */
  lemma NothingHelps(s: State, name: string, r: Repository, calls: nat, refused: bool, packages: seq<Package>)
    requires Stuck(s, name) && r.name == name
    ensures DoUpdateRepository(s, r, calls) == s && DoDeleteRepository(s, name, refused) == s
    ensures DoSyncMirror(s, name, packages) == s && DoCreateRepository(s, r, refused) == s
  {
  }

  /** A view it is added to afterwards can never be cut. */
  lemma NoVersionOfIt(s: State, name: string, p: Publication)
    requires RepositoriesOk(s.repositories) && Stuck(s, name)
    requires p.view in s.views && name in s.views[p.view].members
    ensures DoPublish(s, p) == s
  {
    var members := Members(s.repositories, s.views[p.view]);
    SortedNames(s.views[p.view].members, name);
    var sorted := Sorting.Sorted(s.views[p.view].members, LexLeq);
    var i :| 0 <= i < |sorted| && sorted[i] == name;
    assert members[i].name == name;
  }

  ghost predicate SameMirrors(s: State, s': State) {
    s'.repositories == s.repositories && s'.aptly.mirrors == s.aptly.mirrors
  }

  /** An update of the repository whose first call goes through and whose second fails. */
  ghost predicate HalfUpdate(s: State, step: RepositoryStep, name: string) {
    step.UpdateRepository? && step.repository.name == name && step.calls == 1 && Replaceable(s, name)
  }

  ghost predicate HalfUpdated(s: State, step: Step, name: string) {
    step.OfRepository? && HalfUpdate(s, step.repositoryStep, name)
  }

  lemma CreateSticks(s: State, r: Repository, refused: bool, name: string)
    ensures Stuck(DoCreateRepository(s, r, refused), name) <==> Stuck(s, name)
  {
    if Creatable(s, r.name) && !refused {
    }
  }

  lemma UpdateSticks(s: State, r: Repository, calls: nat, name: string)
    ensures Stuck(DoUpdateRepository(s, r, calls), name) <==>
              Stuck(s, name) || (r.name == name && calls == 1 && Replaceable(s, name))
  {
    if Replaceable(s, r.name) && calls > 0 {
    }
  }

  lemma DeleteSticks(s: State, n: string, refused: bool, name: string)
    ensures Stuck(DoDeleteRepository(s, n, refused), name) <==> Stuck(s, name)
  {
    if Replaceable(s, n) && !refused {
    }
  }

  lemma RepositoryStepSticks(s: State, step: RepositoryStep, name: string)
    ensures Stuck(ApplyRepository(s, step), name) <==> Stuck(s, name) || HalfUpdate(s, step, name)
  {
    match step
    case CreateRepository(r, refused) => CreateSticks(s, r, refused, name);
    case UpdateRepository(r, calls) => UpdateSticks(s, r, calls, name);
    case DeleteRepository(n, refused) => DeleteSticks(s, n, refused, name);
    case SyncMirror(n, packages) =>
      if n in s.aptly.mirrors {
      }
  }

  lemma ViewStepMirrors(s: State, step: ViewStep)
    ensures SameMirrors(s, ApplyView(s, step))
  {
    match step
    case CreateView(name, members) =>
      if Admissible(s, name, members) {
      }
    case DeleteView(view) =>
      if Unassigned(s, view) {
      }
    case AddFilter(view, f) =>
      if view in s.views {
      }
    case DropFilter(view, i) =>
      if view in s.views && i < |s.views[view].filters| {
      }
  }

  lemma VersionStepMirrors(s: State, step: VersionStep)
    requires s.aptly.snapshots.Keys <= s.aptly.used
    ensures SameMirrors(s, ApplyVersion(s, step))
  {
    match step
    case Publish(p) =>
      if Cuttable(s, p) {
        ExecuteAdds(s.aptly, PlanOf(s, p), p.budget);
      }
    case DeleteVersion(version, budget) =>
      if Deletable(s, version) {
        DeletesInOrder(s.aptly, s.versions[version].names, budget);
      }
  }

  lemma EnvironmentStepMirrors(s: State, step: EnvironmentStep)
    ensures SameMirrors(s, ApplyEnvironment(s, step))
  {
    match step
    case CreateEnvironment(name) =>
      if NewEnvironment(s, name) {
      }
    case DeleteEnvironment(environment) =>
      if Idle(s, environment) {
      }
  }

  lemma AssignMirrors(s: State, p: Pair, version: nat, refused: bool)
    ensures SameMirrors(s, DoAssign(s, p, version, refused))
  {
    if Assignable(s, p, version) && !refused && Promoted(s, NewAssignment(s, p, version)).Some? {
    }
  }

  lemma PromoteMirrors(s: State, p: Pair, version: nat, refused: bool)
    ensures SameMirrors(s, DoPromote(s, p, version, refused))
  {
    if Promotable(s, p, version) && !refused && Promoted(s, s.assignments[p].(current := version)).Some? {
    }
  }

  lemma RollbackMirrors(s: State, p: Pair, version: nat, refused: bool)
    ensures SameMirrors(s, DoRollback(s, p, version, refused))
  {
    if RollbackAccepts(s, p, version) && !refused && Switched(s, s.assignments[p].(current := version)).Some? {
    }
  }

  lemma AssignmentStepMirrors(s: State, step: AssignmentStep)
    ensures SameMirrors(s, ApplyAssignment(s, step))
  {
    match step
    case Assign(p, version, refused) => AssignMirrors(s, p, version, refused);
    case Promote(p, version, refused) => PromoteMirrors(s, p, version, refused);
    case Rollback(p, version, refused) => RollbackMirrors(s, p, version, refused);
    case Unassign(_) =>
    case PurgeAudit(_) =>
  }

  lemma ServerStepMirrors(s: State, step: ServerStep)
    ensures SameMirrors(s, ApplyServer(s, step))
  {
    match step
    case AddServer(environment) =>
      if environment in s.environments {
      }
    case Decommission(x) =>
      if x in s.servers {
      }
    case Reassign(x, environment) =>
      if Authentic(s, x) && environment in s.environments && s.servers[x].environment != environment {
      }
    case PushFacts(x) =>
      if Authentic(s, x) {
      }
    case Checkin(x) =>
      if Answered(s, x) {
      }
    case Report(x, _, _) =>
      if Authentic(s, x) {
      }
  }

  /** A repository gets stuck by a half-done update of it and by nothing else, and stays so. */
  lemma StepSticks(s: State, step: Step, name: string)
    requires Inv(s)
    ensures Stuck(Apply(s, step), name) <==> Stuck(s, name) || HalfUpdated(s, step, name)
  {
    match step
    case OfRepository(r) => RepositoryStepSticks(s, r, name);
    case OfView(v) => ViewStepMirrors(s, v);
    case OfVersion(v) => VersionStepMirrors(s, v);
    case OfEnvironment(e) => EnvironmentStepMirrors(s, e);
    case OfAssignment(a) => AssignmentStepMirrors(s, a);
    case OfServer(x) => ServerStepMirrors(s, x);
    case Tick(_) =>
  }

  lemma TakenSticks(states: seq<State>, steps: seq<Step>, i: nat, name: string)
    requires Trace(states, steps) && i < |steps| && Inv(states[i])
    ensures Stuck(states[i + 1], name) <==> Stuck(states[i], name) || HalfUpdated(states[i], steps[i], name)
  {
    assert Taken(states, steps, i);
    StepSticks(states[i], steps[i], name);
  }

  lemma {:induction false} StuckForGood(states: seq<State>, steps: seq<Step>, i: nat, j: nat, name: string)
    requires Trace(states, steps) && i <= j <= |steps| && Stuck(states[i], name)
    ensures Stuck(states[j], name)
    decreases j
  {
    if i < j {
      StuckForGood(states, steps, i, j - 1, name);
      TraceKeeps(states, steps, j - 1);
      TakenSticks(states, steps, j - 1, name);
    }
  }

  /** One of the first j steps was a half-done update of the repository. */
  ghost predicate EverHalfUpdated(states: seq<State>, steps: seq<Step>, j: nat, name: string)
    requires |states| == |steps| + 1 && j <= |steps|
  {
    exists i :: 0 <= i < j && HalfUpdated(states[i], steps[i], name)
  }

  lemma OneMoreStep(states: seq<State>, steps: seq<Step>, j: nat, name: string)
    requires |states| == |steps| + 1 && j < |steps|
    ensures EverHalfUpdated(states, steps, j + 1, name) <==>
              EverHalfUpdated(states, steps, j, name) || HalfUpdated(states[j], steps[j], name)
  {
  }

  /** In every run the stuck repositories are exactly those that an update was half done on. */
  lemma {:induction false} StuckIff(states: seq<State>, steps: seq<Step>, j: nat, name: string)
    requires Trace(states, steps) && j <= |steps|
    ensures Stuck(states[j], name) <==> EverHalfUpdated(states, steps, j, name)
    decreases j
  {
    if j > 0 {
      StuckIff(states, steps, j - 1, name);
      TraceKeeps(states, steps, j - 1);
      TakenSticks(states, steps, j - 1, name);
      OneMoreStep(states, steps, j - 1, name);
    }
  }

  /** Two requests from an empty database are enough. */
  lemma StuckExample(matcher: Matcher, r: Repository)
    requires ValidName(r.name)
    ensures var s := DoUpdateRepository(DoCreateRepository(Init(matcher), r, false), r, 1);
            Reachable(s) && Stuck(s, r.name)
  {
    var s := DoCreateRepository(Init(matcher), r, false);
    InitReachable(matcher);
    RepositoryReachable(Init(matcher), CreateRepository(r, false));
    HalfUpdateSticks(s, r);
    RepositoryReachable(s, UpdateRepository(r, 1));
  }
}
