/** Every step keeps every invariant, so they hold in every reachable state. */
module LifecycleRuns {
  import opened Options
  import opened ContentHash
  import opened AptlyServer
  import opened Cut
  import opened CutProofs
  import opened Lifecycle
  import opened LifecycleCatalog
  import opened LifecycleSnapshots
  import opened LifecycleAssignments
  import opened LifecycleAudit
  import opened LifecycleFence

  ghost predicate Inv(s: State) {
    && IdsOk(s) && CatalogOk(s) && VersionsOk(s.views, s.versions) && CutsOkIn(s)
    && TableOk(s) && TrailOk(s) && FenceOk(s.issued, s.servers, s.assignments)
  }

  // ----- what the kinds of step leave alone ------------------------------------------------------------------

  ghost predicate SameCatalog(s: State, s': State) {
    s'.repositories == s.repositories && s'.views == s.views && s'.environments == s.environments
  }

  ghost predicate SameVersions(s: State, s': State) {
    && s'.versions == s.versions && s'.cuts == s.cuts
    && s'.aptly.snapshots == s.aptly.snapshots && s'.aptly.used == s.aptly.used
  }

  ghost predicate SameTable(s: State, s': State) {
    && s'.now == s.now && s'.assignments == s.assignments && s'.audit == s.audit && s'.history == s.history
    && s'.aptly.published == s.aptly.published
  }

  ghost predicate SameServers(s: State, s': State) {
    s'.servers == s.servers && s'.issued == s.issued
  }

  // ----- repositories --------------------------------------------------------------------------------------

  ghost predicate RepositoriesMoved(s: State, s': State) {
    && s'.views == s.views && s'.environments == s.environments && SameVersions(s, s') && SameTable(s, s')
    && SameServers(s, s') && s'.nextId == s.nextId
    && RepositoriesOk(s'.repositories) && ViewsOk(s'.repositories, s.views)
    && forall v :: v in s.views ==> ReleaseOf(s'.repositories, s.views[v]) == ReleaseOf(s.repositories, s.views[v])
  }

  lemma RepositoriesMovedKeeps(s: State, s': State)
    requires Inv(s) && RepositoriesMoved(s, s')
    ensures Inv(s')
  {
  }

  lemma CreateRepositoryMoves(s: State, r: Repository, refused: bool)
    requires RepositoriesOk(s.repositories) && ViewsOk(s.repositories, s.views)
    ensures RepositoriesMoved(s, DoCreateRepository(s, r, refused))
  {
    if Creatable(s, r.name) && !refused {
      UnreferencedMayChange(s.repositories, s.repositories[r.name := r], s.views, r.name);
    }
  }

  lemma UpdateRepositoryMoves(s: State, r: Repository, calls: nat)
    requires RepositoriesOk(s.repositories) && ViewsOk(s.repositories, s.views)
    ensures RepositoriesMoved(s, DoUpdateRepository(s, r, calls))
  {
    if Replaceable(s, r.name) && calls > 0 {
      UnreferencedMayChange(s.repositories, s.repositories[r.name := r], s.views, r.name);
    }
  }

  lemma DeleteRepositoryMoves(s: State, name: string, refused: bool)
    requires RepositoriesOk(s.repositories) && ViewsOk(s.repositories, s.views)
    ensures RepositoriesMoved(s, DoDeleteRepository(s, name, refused))
  {
    if Replaceable(s, name) && !refused {
      UnreferencedMayChange(s.repositories, s.repositories - {name}, s.views, name);
    }
  }

  lemma SyncMirrorMoves(s: State, name: string, packages: seq<Package>)
    requires RepositoriesOk(s.repositories) && ViewsOk(s.repositories, s.views)
    ensures RepositoriesMoved(s, DoSyncMirror(s, name, packages))
  {
    if name in s.aptly.mirrors {
    }
  }

  lemma RepositoryStepMoves(s: State, step: RepositoryStep)
    requires RepositoriesOk(s.repositories) && ViewsOk(s.repositories, s.views)
    ensures RepositoriesMoved(s, ApplyRepository(s, step))
  {
    match step
    case CreateRepository(r, refused) => CreateRepositoryMoves(s, r, refused);
    case UpdateRepository(r, calls) => UpdateRepositoryMoves(s, r, calls);
    case DeleteRepository(name, refused) => DeleteRepositoryMoves(s, name, refused);
    case SyncMirror(name, packages) => SyncMirrorMoves(s, name, packages);
  }

  // ----- views -----------------------------------------------------------------------------------------------

  ghost predicate ViewsMoved(s: State, s': State) {
    && s'.repositories == s.repositories && s'.environments == s.environments && SameServers(s, s')
    && SameTable(s, s') && s.nextId <= s'.nextId
    && ViewsOk(s.repositories, s'.views) && (forall v :: v in s'.views ==> v < s'.nextId)
    && VersionsOk(s'.views, s'.versions) && (forall x :: x in s'.versions ==> x in s.versions)
    && CutsOkIn(s') && TableOk(s')
  }

  lemma ViewsMovedKeeps(s: State, s': State)
    requires Inv(s) && ViewsMoved(s, s')
    ensures Inv(s')
  {
  }

  lemma KeysOfGrownViews(repositories: map<string, Repository>, views: map<nat, View>, views': map<nat, View>,
                         environments: map<nat, string>, assignments: map<Pair, Assignment>)
    requires KeysOk(repositories, views, environments, assignments)
    requires forall v :: v in views ==>
               v in views' && views'[v].name == views[v].name && views'[v].members == views[v].members
    ensures KeysOk(repositories, views', environments, assignments)
  {
    forall p: Pair | p in assignments
      ensures ReleaseOf(repositories, views'[p.1]) == ReleaseOf(repositories, views[p.1])
    {
    }
  }

  /** Views may be added, and change in their filters. */
  lemma ViewsGrow(s: State, views: map<nat, View>, nextId: nat)
    requires VersionsOk(s.views, s.versions) && TableOk(s) && CutsOkIn(s)
    requires ViewsOk(s.repositories, views) && s.nextId <= nextId && (forall v :: v in views ==> v < nextId)
    requires forall v :: v in s.views ==>
               v in views && views[v].name == s.views[v].name && views[v].members == s.views[v].members
    ensures ViewsMoved(s, s.(views := views, nextId := nextId))
  {
    KeysOfGrownViews(s.repositories, s.views, views, s.environments, s.assignments);
  }

  lemma CreateViewMoves(s: State, name: string, members: seq<string>)
    requires Inv(s)
    ensures ViewsMoved(s, DoCreateView(s, name, members))
  {
    if Admissible(s, name, members) {
      ViewsGrow(s, s.views[s.nextId := View(name, members, [])], s.nextId + 1);
    } else {
      ViewsGrow(s, s.views, s.nextId);
    }
  }

  lemma WithFiltersMoves(s: State, view: nat, filters: seq<Filter>)
    requires Inv(s) && view in s.views
    ensures ViewsMoved(s, WithFilters(s, view, filters))
  {
    ViewsGrow(s, s.views[view := s.views[view].(filters := filters)], s.nextId);
  }

  lemma FewerVersions(versions: map<nat, Version>, versions': map<nat, Version>, cuts: map<nat, seq<string>>,
                      snapshots: set<string>, used: set<string>)
    requires CutsOk(versions, cuts, snapshots, used)
    requires forall x :: x in versions' ==> x in versions && versions'[x] == versions[x]
    ensures CutsOk(versions', cuts, snapshots, used)
  {
  }

  lemma DeleteViewMoves(s: State, view: nat)
    requires ViewsOk(s.repositories, s.views) && (forall v :: v in s.views ==> v < s.nextId)
    requires VersionsOk(s.views, s.versions) && TableOk(s) && CutsOkIn(s)
    ensures ViewsMoved(s, DoDeleteView(s, view))
  {
    if Unassigned(s, view) {
      DeleteViewKeepsTable(s, view);
      FewerVersionsOk(s.views, s.views - {view}, s.versions, s.versions - VersionsOf(s.versions, view));
      FewerVersions(s.versions, s.versions - VersionsOf(s.versions, view), s.cuts, s.aptly.snapshots.Keys,
                    s.aptly.used);
    } else {
      ViewsGrow(s, s.views, s.nextId);
    }
  }

  lemma ViewStepMoves(s: State, step: ViewStep)
    requires Inv(s)
    ensures ViewsMoved(s, ApplyView(s, step))
  {
    match step
    case CreateView(name, members) => CreateViewMoves(s, name, members);
    case DeleteView(view) => DeleteViewMoves(s, view);
    case AddFilter(view, f) =>
      if view in s.views {
        WithFiltersMoves(s, view, s.views[view].filters + [f]);
      } else {
        ViewsGrow(s, s.views, s.nextId);
      }
    case DropFilter(view, i) =>
      if view in s.views && i < |s.views[view].filters| {
        WithFiltersMoves(s, view, s.views[view].filters[..i] + s.views[view].filters[i + 1..]);
      } else {
        ViewsGrow(s, s.views, s.nextId);
      }
  }

  // ----- versions ----------------------------------------------------------------------------------------------

  ghost predicate VersionsMoved(s: State, s': State) {
    && SameCatalog(s, s') && SameTable(s, s') && SameServers(s, s') && s.nextId <= s'.nextId
    && (forall x :: x in s'.versions ==> x in s.versions || x < s'.nextId)
    && VersionsOk(s.views, s'.versions) && CutsOkIn(s') && TableOk(s')
  }

  lemma VersionsMovedKeeps(s: State, s': State)
    requires Inv(s) && VersionsMoved(s, s')
    ensures Inv(s')
  {
  }

  /** More snapshots, and perhaps one more version. */
  ghost predicate VersionsGrew(s: State, s': State) {
    && SameCatalog(s, s') && SameTable(s, s') && SameServers(s, s') && Extends(s.aptly, s'.aptly)
    && s.nextId <= s'.nextId <= s.nextId + 1
    && (s'.versions == s.versions
        || (s'.nextId == s.nextId + 1 && s.nextId in s'.versions
            && s'.versions == s.versions[s.nextId := s'.versions[s.nextId]]))
  }

  lemma PublishGrows(s: State, p: Publication)
    requires Extends(s.aptly, DoPublish(s, p).aptly)
    ensures VersionsGrew(s, DoPublish(s, p))
  {
    if Cuttable(s, p) {
      if Complete(s, p) {
      }
    }
  }

  lemma GrownKeepsTable(s: State, s': State)
    requires TableOk(s) && VersionsGrew(s, s') && s.nextId !in s.versions
    ensures TableOk(s')
  {
    forall q: Pair, x | q in s.assignments ensures Spared(s, s', q, x) {
    }
    UsableLater(s, s');
  }

  lemma PublishMoves(s: State, p: Publication)
    requires ViewsOk(s.repositories, s.views) && VersionsOk(s.views, s.versions) && CutsOkIn(s) && TableOk(s)
    requires forall x :: x in s.versions ==> x < s.nextId
    ensures VersionsMoved(s, DoPublish(s, p))
  {
    PublishKeepsVersions(s, p);
    PublishKeepsCuts(s, p);
    PublishGrows(s, p);
    GrownKeepsTable(s, DoPublish(s, p));
  }

  ghost predicate SameButNames(v: Version, w: Version) {
    w.view == v.view && w.number == v.number && w.sources == v.sources
  }

  lemma FewerVersionsOk(views: map<nat, View>, views': map<nat, View>, versions: map<nat, Version>,
                        versions': map<nat, Version>)
    requires VersionsOk(views, versions)
    requires forall x :: x in versions' ==>
               x in versions && SameButNames(versions[x], versions'[x]) && versions[x].view in views'
    ensures VersionsOk(views', versions')
  {
  }

  lemma DeleteVersionFrame(s: State, version: nat, budget: nat)
    ensures var s' := DoDeleteVersion(s, version, budget);
            && SameCatalog(s, s') && SameTable(s, s') && SameServers(s, s') && s'.nextId == s.nextId
            && (forall x :: x in s'.versions ==> x in s.versions && SameButNames(s.versions[x], s'.versions[x]))
  {
    if Deletable(s, version) {
      DeletesInOrder(s.aptly, s.versions[version].names, budget);
    }
  }

  lemma DeleteVersionMoves(s: State, version: nat, budget: nat)
    requires VersionsOk(s.views, s.versions) && CutsOkIn(s) && TableOk(s)
    ensures VersionsMoved(s, DoDeleteVersion(s, version, budget))
  {
    DeleteVersionFrame(s, version, budget);
    FewerVersionsOk(s.views, s.views, s.versions, DoDeleteVersion(s, version, budget).versions);
    DeleteVersionKeepsCuts(s, version, budget);
    DeleteVersionKeepsTable(s, version, budget);
  }

  lemma VersionStepMoves(s: State, step: VersionStep)
    requires ViewsOk(s.repositories, s.views) && VersionsOk(s.views, s.versions) && CutsOkIn(s) && TableOk(s)
    requires forall x :: x in s.versions ==> x < s.nextId
    ensures VersionsMoved(s, ApplyVersion(s, step))
  {
    match step
    case Publish(p) => PublishMoves(s, p);
    case DeleteVersion(version, budget) => DeleteVersionMoves(s, version, budget);
  }

  // ----- environments --------------------------------------------------------------------------------------------

  ghost predicate EnvironmentsMoved(s: State, s': State) {
    && s'.repositories == s.repositories && s'.views == s.views && SameVersions(s, s') && SameTable(s, s')
    && SameServers(s, s') && s.nextId <= s'.nextId
    && EnvironmentsOk(s'.environments) && (forall e :: e in s'.environments ==> e < s'.nextId)
    && KeysOk(s.repositories, s.views, s'.environments, s.assignments)
  }

  lemma EnvironmentsMovedKeeps(s: State, s': State)
    requires Inv(s) && EnvironmentsMoved(s, s')
    ensures Inv(s')
  {
  }

  lemma CreateEnvironmentMoves(s: State, name: string)
    requires EnvironmentsOk(s.environments) && (forall e :: e in s.environments ==> e < s.nextId)
    requires KeysOk(s.repositories, s.views, s.environments, s.assignments)
    ensures EnvironmentsMoved(s, DoCreateEnvironment(s, name))
  {
    if NewEnvironment(s, name) {
    }
  }

  lemma DeleteEnvironmentMoves(s: State, environment: nat)
    requires EnvironmentsOk(s.environments) && (forall e :: e in s.environments ==> e < s.nextId)
    requires KeysOk(s.repositories, s.views, s.environments, s.assignments)
    ensures EnvironmentsMoved(s, DoDeleteEnvironment(s, environment))
  {
    if Idle(s, environment) {
    }
  }

  lemma EnvironmentStepMoves(s: State, step: EnvironmentStep)
    requires EnvironmentsOk(s.environments) && (forall e :: e in s.environments ==> e < s.nextId)
    requires KeysOk(s.repositories, s.views, s.environments, s.assignments)
    ensures EnvironmentsMoved(s, ApplyEnvironment(s, step))
  {
    match step
    case CreateEnvironment(name) => CreateEnvironmentMoves(s, name);
    case DeleteEnvironment(environment) => DeleteEnvironmentMoves(s, environment);
  }

  // ----- assignments -----------------------------------------------------------------------------------------

  ghost predicate AssignmentsFramed(s: State, s': State) {
    && SameCatalog(s, s') && SameVersions(s, s') && s'.issued == s.issued && s'.now == s.now && s.nextId <= s'.nextId
    && (forall p :: p in s'.assignments ==> s'.assignments[p].id < s'.nextId)
    && (forall x :: x in s'.servers ==> x < s'.nextId)
    && (forall i :: 0 <= i < |s'.history| ==> s'.history[i].assignment < s'.nextId)
    && (forall i :: 0 <= i < |s'.audit| ==> s'.audit[i].assignment < s'.nextId)
    && FenceOk(s'.issued, s'.servers, s'.assignments)
  }

  ghost predicate AssignmentsMoved(s: State, s': State) {
    AssignmentsFramed(s, s') && TableOk(s') && TrailOk(s')
  }

  lemma AssignmentsMovedKeeps(s: State, s': State)
    requires Inv(s) && AssignmentsMoved(s, s')
    ensures Inv(s')
  {
  }

  lemma CommittedFramed(s: State, p: Pair, a: Assignment, from: Option<nat>, aptly: Aptly, nextId: nat)
    requires IdsOk(s) && a.id < nextId && s.nextId <= nextId && FenceOk(s.issued, s.servers, s.assignments)
    requires aptly.snapshots == s.aptly.snapshots && aptly.used == s.aptly.used
    ensures AssignmentsFramed(s, Committed(s, p, a, from, aptly).(nextId := nextId))
  {
    CommittedKeepsFence(s, p, a, from, aptly);
  }

  lemma AssignFramed(s: State, p: Pair, version: nat, refused: bool)
    requires IdsOk(s) && FenceOk(s.issued, s.servers, s.assignments)
    ensures AssignmentsFramed(s, DoAssign(s, p, version, refused))
  {
    if Assignable(s, p, version) && !refused && Promoted(s, NewAssignment(s, p, version)).Some? {
      var a := NewAssignment(s, p, version);
      CommittedFramed(s, p, a, None, Promoted(s, a).value, s.nextId + 1);
    }
  }

  lemma PromoteFramed(s: State, p: Pair, version: nat, refused: bool)
    requires IdsOk(s) && FenceOk(s.issued, s.servers, s.assignments)
    ensures AssignmentsFramed(s, DoPromote(s, p, version, refused))
  {
    if Promotable(s, p, version) && !refused && Promoted(s, s.assignments[p].(current := version)).Some? {
      var a := s.assignments[p].(current := version);
      CommittedFramed(s, p, a, Some(s.assignments[p].current), Promoted(s, a).value, s.nextId);
    }
  }

  lemma RollbackFramed(s: State, p: Pair, version: nat, refused: bool)
    requires IdsOk(s) && FenceOk(s.issued, s.servers, s.assignments)
    ensures AssignmentsFramed(s, DoRollback(s, p, version, refused))
  {
    if RollbackAccepts(s, p, version) && !refused && Switched(s, s.assignments[p].(current := version)).Some? {
      var a := s.assignments[p].(current := version);
      CommittedFramed(s, p, a, Some(s.assignments[p].current), Switched(s, a).value, s.nextId);
    }
  }

  lemma AssignMoves(s: State, p: Pair, version: nat, refused: bool)
    requires CatalogOk(s) && TableOk(s) && TrailOk(s) && IdsOk(s) && FenceOk(s.issued, s.servers, s.assignments)
    ensures AssignmentsMoved(s, DoAssign(s, p, version, refused))
  {
    AssignFramed(s, p, version, refused);
    AssignKeepsTable(s, p, version, refused);
    AssignKeepsTrail(s, p, version, refused);
  }

  lemma PromoteMoves(s: State, p: Pair, version: nat, refused: bool)
    requires TableOk(s) && TrailOk(s) && IdsOk(s) && FenceOk(s.issued, s.servers, s.assignments)
    ensures AssignmentsMoved(s, DoPromote(s, p, version, refused))
  {
    PromoteFramed(s, p, version, refused);
    PromoteKeepsTable(s, p, version, refused);
    PromoteKeepsTrail(s, p, version, refused);
  }

  lemma RollbackMoves(s: State, p: Pair, version: nat, refused: bool)
    requires TableOk(s) && TrailOk(s) && IdsOk(s) && FenceOk(s.issued, s.servers, s.assignments)
    ensures AssignmentsMoved(s, DoRollback(s, p, version, refused))
  {
    RollbackFramed(s, p, version, refused);
    RollbackKeepsTable(s, p, version, refused);
    RollbackKeepsTrail(s, p, version, refused);
  }

  lemma UnassignMoves(s: State, p: Pair)
    requires TableOk(s) && TrailOk(s) && IdsOk(s) && FenceOk(s.issued, s.servers, s.assignments)
    ensures AssignmentsMoved(s, DoUnassign(s, p))
  {
    UnassignKeepsTable(s, p);
    UnassignKeepsFence(s, p);
  }

  lemma PurgeMoves(s: State, retention: nat)
    requires TableOk(s) && TrailOk(s) && IdsOk(s) && FenceOk(s.issued, s.servers, s.assignments)
    ensures AssignmentsMoved(s, DoPurgeAudit(s, retention))
  {
    PurgeKeepsTable(s, retention);
    PurgeKeepsTrail(s, retention);
    SinceIsPart(s.audit, s.now - retention);
  }

  lemma AssignmentStepMoves(s: State, step: AssignmentStep)
    requires CatalogOk(s) && TableOk(s) && TrailOk(s) && IdsOk(s) && FenceOk(s.issued, s.servers, s.assignments)
    ensures AssignmentsMoved(s, ApplyAssignment(s, step))
  {
    match step
    case Assign(p, version, refused) => AssignMoves(s, p, version, refused);
    case Promote(p, version, refused) => PromoteMoves(s, p, version, refused);
    case Rollback(p, version, refused) => RollbackMoves(s, p, version, refused);
    case Unassign(p) => UnassignMoves(s, p);
    case PurgeAudit(retention) => PurgeMoves(s, retention);
  }

  // ----- servers -----------------------------------------------------------------------------------------------

  ghost predicate ServersMoved(s: State, s': State) {
    && SameCatalog(s, s') && SameVersions(s, s') && SameTable(s, s') && s.nextId <= s'.nextId
    && (forall x :: x in s'.servers ==> x < s'.nextId)
    && FenceOk(s'.issued, s'.servers, s'.assignments)
  }

  lemma ServersMovedKeeps(s: State, s': State)
    requires Inv(s) && ServersMoved(s, s')
    ensures Inv(s')
  {
  }

  lemma ServerChanges(s: State, x: nat, y: Server, nextId: nat)
    requires FenceOk(s.issued, s.servers, s.assignments) && (forall z :: z in s.servers ==> z < s.nextId)
    requires s.nextId <= nextId && x < nextId && (x in s.servers ==> Advances(s.servers[x], y))
    ensures ServersMoved(s, s.(servers := s.servers[x := y], nextId := nextId))
  {
    ServerKeepsFence(s.issued, s.servers, s.assignments, x, y);
  }

  lemma NothingChanges(s: State)
    requires FenceOk(s.issued, s.servers, s.assignments) && (forall z :: z in s.servers ==> z < s.nextId)
    ensures ServersMoved(s, s)
  {
  }

  lemma AddServerMoves(s: State, environment: nat)
    requires FenceOk(s.issued, s.servers, s.assignments) && (forall z :: z in s.servers ==> z < s.nextId)
    ensures ServersMoved(s, DoAddServer(s, environment))
  {
    NothingChanges(s);
    ServerChanges(s, s.nextId, Server(environment, true, None), s.nextId + 1);
  }

  lemma DecommissionMoves(s: State, x: nat)
    requires FenceOk(s.issued, s.servers, s.assignments) && (forall z :: z in s.servers ==> z < s.nextId)
    ensures ServersMoved(s, DoDecommission(s, x))
  {
    NothingChanges(s);
    if x in s.servers {
      ServerChanges(s, x, s.servers[x].(active := false), s.nextId);
    }
  }

  lemma ReassignMoves(s: State, x: nat, environment: nat)
    requires FenceOk(s.issued, s.servers, s.assignments) && (forall z :: z in s.servers ==> z < s.nextId)
    ensures ServersMoved(s, DoReassign(s, x, environment))
  {
    NothingChanges(s);
    if Authentic(s, x) && environment in s.environments && s.servers[x].environment != environment {
      ServerChanges(s, x, Bumped(s.servers[x], s.servers[x].environment).(environment := environment), s.nextId);
    }
  }

  lemma PushFactsMoves(s: State, x: nat)
    requires FenceOk(s.issued, s.servers, s.assignments) && (forall z :: z in s.servers ==> z < s.nextId)
    ensures ServersMoved(s, DoPushFacts(s, x))
  {
    NothingChanges(s);
    if Authentic(s, x) {
      ServerChanges(s, x, WithBeacon(s.servers[x]), s.nextId);
    }
  }

  lemma CheckinMoves(s: State, x: nat)
    requires FenceOk(s.issued, s.servers, s.assignments) && (forall z :: z in s.servers ==> z < s.nextId)
    ensures ServersMoved(s, DoCheckin(s, x))
  {
    CheckinKeepsFence(s, x);
    if Answered(s, x) {
    }
  }

  lemma ReportMoves(s: State, x: nat, serial: nat, applied: bool)
    requires FenceOk(s.issued, s.servers, s.assignments) && (forall z :: z in s.servers ==> z < s.nextId)
    ensures ServersMoved(s, DoReport(s, x, serial, applied))
  {
    NothingChanges(s);
    if Authentic(s, x) {
      ServerChanges(s, x, Reported(s.servers[x], serial, applied), s.nextId);
    }
  }

  lemma ServerStepMoves(s: State, step: ServerStep)
    requires FenceOk(s.issued, s.servers, s.assignments) && (forall z :: z in s.servers ==> z < s.nextId)
    ensures ServersMoved(s, ApplyServer(s, step))
  {
    match step
    case AddServer(environment) => AddServerMoves(s, environment);
    case Decommission(x) => DecommissionMoves(s, x);
    case Reassign(x, environment) => ReassignMoves(s, x, environment);
    case PushFacts(x) => PushFactsMoves(s, x);
    case Checkin(x) => CheckinMoves(s, x);
    case Report(x, serial, applied) => ReportMoves(s, x, serial, applied);
  }

  // ----- runs ---------------------------------------------------------------------------------------------------

  lemma RepositoryStepKeeps(s: State, step: RepositoryStep)
    requires Inv(s)
    ensures Inv(ApplyRepository(s, step))
  {
    RepositoryStepMoves(s, step);
    RepositoriesMovedKeeps(s, ApplyRepository(s, step));
  }

  lemma ViewStepKeeps(s: State, step: ViewStep)
    requires Inv(s)
    ensures Inv(ApplyView(s, step))
  {
    ViewStepMoves(s, step);
    ViewsMovedKeeps(s, ApplyView(s, step));
  }

  lemma VersionStepKeeps(s: State, step: VersionStep)
    requires Inv(s)
    ensures Inv(ApplyVersion(s, step))
  {
    VersionStepMoves(s, step);
    VersionsMovedKeeps(s, ApplyVersion(s, step));
  }

  lemma EnvironmentStepKeeps(s: State, step: EnvironmentStep)
    requires Inv(s)
    ensures Inv(ApplyEnvironment(s, step))
  {
    EnvironmentStepMoves(s, step);
    EnvironmentsMovedKeeps(s, ApplyEnvironment(s, step));
  }

  lemma AssignmentStepKeeps(s: State, step: AssignmentStep)
    requires Inv(s)
    ensures Inv(ApplyAssignment(s, step))
  {
    AssignmentStepMoves(s, step);
    AssignmentsMovedKeeps(s, ApplyAssignment(s, step));
  }

  lemma ServerStepKeeps(s: State, step: ServerStep)
    requires Inv(s)
    ensures Inv(ApplyServer(s, step))
  {
    ServerStepMoves(s, step);
    ServersMovedKeeps(s, ApplyServer(s, step));
  }

  lemma TickKeeps(s: State, seconds: nat)
    requires Inv(s)
    ensures Inv(s.(now := s.now + seconds))
  {
    assert TableOk(s.(now := s.now + seconds));
  }

  lemma StepKeeps(s: State, step: Step)
    requires Inv(s)
    ensures Inv(Apply(s, step))
  {
    match step
    case OfRepository(r) => RepositoryStepKeeps(s, r);
    case OfView(v) => ViewStepKeeps(s, v);
    case OfVersion(v) => VersionStepKeeps(s, v);
    case OfEnvironment(e) => EnvironmentStepKeeps(s, e);
    case OfAssignment(a) => AssignmentStepKeeps(s, a);
    case OfServer(x) => ServerStepKeeps(s, x);
    case Tick(seconds) => TickKeeps(s, seconds);
  }

  lemma InitKeeps(matcher: Matcher)
    ensures Inv(Init(matcher))
  {
  }

  lemma TakenKeeps(states: seq<State>, steps: seq<Step>, i: nat)
    requires Trace(states, steps) && i < |steps| && Inv(states[i])
    ensures Inv(states[i + 1])
  {
    assert Taken(states, steps, i);
    StepKeeps(states[i], steps[i]);
  }

  lemma {:induction false} TraceKeeps(states: seq<State>, steps: seq<Step>, i: nat)
    requires Trace(states, steps) && i <= |steps|
    ensures Inv(states[i])
    decreases i
  {
    if i == 0 {
      var matcher :| states[0] == Init(matcher);
      InitKeeps(matcher);
    } else {
      TraceKeeps(states, steps, i - 1);
      TakenKeeps(states, steps, i - 1);
    }
  }

  /** The invariants hold after every sequence of requests, tasks and failures. */
  lemma EveryRunKeeps(s: State)
    requires Reachable(s)
    ensures Inv(s)
  {
    var states, steps :| Trace(states, steps) && states[|steps|] == s;
    TraceKeeps(states, steps, |steps|);
  }

  // ----- one step further ---------------------------------------------------------------------------------

  lemma InitReachable(matcher: Matcher)
    ensures Reachable(Init(matcher))
  {
    assert Trace([Init(matcher)], []);
  }

  lemma StepReachable(s: State, step: Step)
    requires Reachable(s)
    ensures Reachable(Apply(s, step))
  {
    var states, steps :| Trace(states, steps) && states[|steps|] == s;
    var states', steps' := states + [Apply(s, step)], steps + [step];
    forall i | 0 <= i < |steps'| ensures Taken(states', steps', i) {
      if i < |steps| {
        assert Taken(states, steps, i);
      }
    }
    assert Trace(states', steps') && states'[|steps'|] == Apply(s, step);
  }

  lemma RepositoryReachable(s: State, step: RepositoryStep)
    requires Reachable(s)
    ensures Reachable(ApplyRepository(s, step))
  {
    StepReachable(s, OfRepository(step));
  }
}
