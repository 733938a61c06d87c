/** The content lifecycle and the config serial as one state machine: every handler and every task is
    one total step over the database rows and aptly (app/routers/content_views.py,
    lifecycle_environments.py, repositories.py, servers.py, beacon.py and app/tasks.py). */
module Lifecycle {
  import opened Options
  import opened Sorting
  import opened ContentHash
  import opened AptlyServer
  import opened Cut

  // ----- rows -----------------------------------------------------------------------------------------------

  /** `members` are the repositories' names, which are unique and never change. */
  datatype View = View(name: string, members: seq<string>, filters: seq<Filter>)

  /** `content` stands for the content hash, which is one for one with it; `names` is
      all_snapshot_names. */
  datatype Version = Version(view: nat, number: nat, sources: seq<Source>, content: map<string, multiset<Package>>,
                             packageCount: nat, names: seq<string>)

  /** An environment_content_views row; the table's key is the pair (environment, view). */
  type Pair = (nat, nat)
  datatype Assignment = Assignment(id: nat, current: nat, release: string, prefix: string)

  /** A switch_publish or rollback_environment row of the audit log. */
  datatype Row = Row(assignment: nat, version: nat, from: Option<nat>, time: nat)

  datatype Beacon = Beacon(serial: nat, applied: Option<nat>)
  datatype Server = Server(environment: nat, active: bool, beacon: Option<Beacon>)

  /** One checkin answered: the serial it handed out, and what it told the server. */
  datatype Issue = Issue(server: nat, serial: nat, environment: nat, live: map<Pair, Assignment>)

  /** The last three fields are bookkeeping that no table holds: every audit row ever written, the
      snapshot names each version was cut with, and every checkin answered. */
  datatype State = State(
    now: nat,
    nextId: nat,
    repositories: map<string, Repository>,
    views: map<nat, View>,
    versions: map<nat, Version>,
    environments: map<nat, string>,
    assignments: map<Pair, Assignment>,
    servers: map<nat, Server>,
    audit: seq<Row>,
    aptly: Aptly,
    history: seq<Row>,
    cuts: map<nat, seq<string>>,
    issued: seq<Issue>)

  // ----- repositories and views ----------------------------------------------------------------------------

  predicate Referenced(views: map<nat, View>, name: string) {
    exists v :: v in views && name in views[v].members
  }

  predicate Creatable(s: State, name: string) {
    ValidName(name) && name !in s.repositories && name !in s.aptly.mirrors
  }

  function DoCreateRepository(s: State, r: Repository, refused: bool): State {
    if !Creatable(s, r.name) || refused then s
    else
      s.(repositories := s.repositories[r.name := r], aptly := s.aptly.(mirrors := s.aptly.mirrors[r.name := []]))
  }

  /** The guard of update_repository and delete_repository, and aptly's own. */
  predicate Replaceable(s: State, name: string) {
    name in s.repositories && !Referenced(s.views, name) && name in s.aptly.mirrors
  }

  /** update_repository_task: the mirror is deleted, then created again; `calls` of the two go through. */
  function DoUpdateRepository(s: State, r: Repository, calls: nat): State {
    if !Replaceable(s, r.name) || calls == 0 then s
    else
      var others := s.aptly.mirrors - {r.name};
      s.(repositories := if calls == 1 then s.repositories else s.repositories[r.name := r],
         aptly := s.aptly.(mirrors := if calls == 1 then others else others[r.name := []]))
  }

  function DoDeleteRepository(s: State, name: string, refused: bool): State {
    if !Replaceable(s, name) || refused then s
    else
      s.(repositories := s.repositories - {name}, aptly := s.aptly.(mirrors := s.aptly.mirrors - {name}))
  }

  function DoSyncMirror(s: State, name: string, packages: seq<Package>): State {
    if name in s.aptly.mirrors then s.(aptly := s.aptly.(mirrors := s.aptly.mirrors[name := packages])) else s
  }

  function Lookup(repositories: map<string, Repository>, names: seq<string>): seq<Repository> {
    seq(|names|, i requires 0 <= i < |names| =>
      if names[i] in repositories then repositories[names[i]] else Repository(names[i], "", []))
  }

  /** The member repositories in the order of their names, as every query of them asks for. */
  function Members(repositories: map<string, Repository>, view: View): seq<Repository> {
    Lookup(repositories, Sorted(view.members, LexLeq))
  }

  /** No component is declared twice, in two members or in one. */
  ghost predicate NoCollision(repositories: seq<Repository>) {
    forall a, b, i, j ::
      0 <= a < |repositories| && 0 <= b < |repositories| && 0 <= i < |repositories[a].components|
      && 0 <= j < |repositories[b].components| && repositories[a].components[i] == repositories[b].components[j] ==>
        a == b && i == j
  }

  predicate ViewNamed(views: map<nat, View>, name: string) {
    exists v :: v in views && views[v].name == name
  }

  ghost predicate Admissible(s: State, name: string, members: seq<string>) {
    && ValidName(name) && members != [] && !ViewNamed(s.views, name) && Distinct(members)
    && (forall i :: 0 <= i < |members| ==> members[i] in s.repositories)
    && NoCollision(Lookup(s.repositories, members))
  }

  /** create_content_view, up to its commit; the version it then cuts is a Publish. */
  ghost function DoCreateView(s: State, name: string, members: seq<string>): State {
    if !Admissible(s, name, members) then s
    else s.(nextId := s.nextId + 1, views := s.views[s.nextId := View(name, members, [])])
  }

  predicate ViewAssigned(assignments: map<Pair, Assignment>, view: nat) {
    exists p: Pair :: p in assignments && p.1 == view
  }

  function VersionsOf(versions: map<nat, Version>, view: nat): set<nat> {
    set x | x in versions && versions[x].view == view
  }

  predicate Unassigned(s: State, view: nat) {
    view in s.views && !ViewAssigned(s.assignments, view)
  }

  function DoDeleteView(s: State, view: nat): State {
    if !Unassigned(s, view) then s
    else s.(views := s.views - {view}, versions := s.versions - VersionsOf(s.versions, view))
  }

  function WithFilters(s: State, view: nat, filters: seq<Filter>): State
    requires view in s.views
  {
    s.(views := s.views[view := s.views[view].(filters := filters)])
  }

  function DoAddFilter(s: State, view: nat, f: Filter): State {
    if view !in s.views then s else WithFilters(s, view, s.views[view].filters + [f])
  }

  function DoDropFilter(s: State, view: nat, i: nat): State {
    if view !in s.views || i >= |s.views[view].filters| then s
    else WithFilters(s, view, s.views[view].filters[..i] + s.views[view].filters[i + 1..])
  }

  // ----- versions ----------------------------------------------------------------------------------------------

  ghost predicate IsLatest(versions: map<nat, Version>, view: nat, x: nat) {
    && x in versions && versions[x].view == view
    && forall y :: y in versions && versions[y].view == view ==> versions[y].number <= versions[x].number
  }

  ghost function Latest(versions: map<nat, Version>, view: nat): Option<nat> {
    if exists x :: IsLatest(versions, view, x) then
      var x :| IsLatest(versions, view, x);
      Some(x)
    else None
  }

  function Readings(a: Aptly, members: seq<Repository>): seq<Reading> {
    seq(|members|, i requires 0 <= i < |members| =>
      Reading(members[i].name, if members[i].name in a.mirrors then a.mirrors[members[i].name] else []))
  }

  predicate Mirrored(a: Aptly, members: seq<Repository>) {
    forall i :: 0 <= i < |members| ==> members[i].name in a.mirrors
  }

  /** The caller's part of a publish and aptly's: whether the mirrors and the new snapshots can be
      read, and how many of the creating calls go through before one fails. */
  datatype Publication = Publication(view: nat, force: bool, stamp: string, errata: seq<ErratumPackage>,
                                     readable: bool, budget: nat, countable: bool)

  ghost function OrderOf(s: State, p: Publication): Order
    requires p.view in s.views
  {
    var latest := Latest(s.versions, p.view);
    var number := if latest.Some? && latest.value in s.versions then s.versions[latest.value].number + 1 else 1;
    Order(s.views[p.view].name, number, p.stamp, s.views[p.view].filters, p.errata)
  }

  /** A publish that finds nothing to cut. */
  ghost predicate Unchanged(s: State, p: Publication)
    requires p.view in s.views
  {
    var latest := Latest(s.versions, p.view);
    && !p.force && latest.Some? && latest.value in s.versions
    && s.versions[latest.value].content == Content(Readings(s.aptly, Members(s.repositories, s.views[p.view])))
  }

  ghost function PlanOf(s: State, p: Publication): seq<Creation>
    requires p.view in s.views
  {
    Plan(OrderOf(s, p), Members(s.repositories, s.views[p.view]))
  }

  ghost function SourcesOf(s: State, p: Publication): seq<Source>
    requires p.view in s.views
  {
    Sources(OrderOf(s, p), Members(s.repositories, s.views[p.view]))
  }

  ghost predicate Cuttable(s: State, p: Publication) {
    && p.view in s.views && Members(s.repositories, s.views[p.view]) != [] && p.readable
    && Mirrored(s.aptly, Members(s.repositories, s.views[p.view])) && !Unchanged(s, p)
  }

  /** All snapshots were made and could be counted. */
  ghost predicate Complete(s: State, p: Publication)
    requires p.view in s.views
  {
    var (aptly, made) := Execute(s.aptly, PlanOf(s, p), p.budget);
    made == |PlanOf(s, p)| && p.countable && Snapshots(SourcesOf(s, p)) <= aptly.snapshots.Keys
  }

  ghost function VersionCut(s: State, p: Publication): Version
    requires p.view in s.views && Complete(s, p)
  {
    var aptly := Execute(s.aptly, PlanOf(s, p), p.budget).0;
    Version(p.view, OrderOf(s, p).number, SourcesOf(s, p),
            Content(Readings(s.aptly, Members(s.repositories, s.views[p.view]))),
            PackageCount(aptly, Snapshots(SourcesOf(s, p))), Names(PlanOf(s, p)))
  }

  /** do_publish: the snapshots that were made stay made; the version row is there only if all were. */
  ghost function DoPublish(s: State, p: Publication): State {
    if !Cuttable(s, p) then s
    else
      s.(aptly := Execute(s.aptly, PlanOf(s, p), p.budget).0,
         nextId := if Complete(s, p) then s.nextId + 1 else s.nextId,
         versions := if Complete(s, p) then s.versions[s.nextId := VersionCut(s, p)] else s.versions,
         cuts := if Complete(s, p) then s.cuts[s.nextId := Names(PlanOf(s, p))] else s.cuts)
  }

  /** version_ever_promoted: live somewhere, or an audit row is left that says it was. */
  predicate EverPromoted(s: State, version: nat) {
    (exists p :: p in s.assignments && s.assignments[p].current == version)
    || (exists i :: 0 <= i < |s.audit| && s.audit[i].version == version)
  }

  predicate Deletable(s: State, version: nat) {
    version in s.versions && !EverPromoted(s, version)
  }

  /** The deletes in their order, up to the first that fails: aptly then, and the names still there. */
  function DeleteAll(a: Aptly, names: seq<string>, budget: nat): (Aptly, seq<string>)
    decreases |names|
  {
    if names == [] || budget == 0 || DeleteSnapshot(a, names[0]).None? then (a, names)
    else DeleteAll(DeleteSnapshot(a, names[0]).value, names[1..], budget - 1)
  }

  /** delete_content_view_version_task */
  function DoDeleteVersion(s: State, version: nat, budget: nat): State {
    if !Deletable(s, version) then s
    else
      var (aptly, remaining) := DeleteAll(s.aptly, s.versions[version].names, budget);
      s.(aptly := aptly,
         versions := if remaining == [] then s.versions - {version}
                     else s.versions[version := s.versions[version].(names := remaining)])
  }

  // ----- environments --------------------------------------------------------------------------------------------

  predicate EnvironmentNamed(environments: map<nat, string>, name: string) {
    exists e :: e in environments && environments[e] == name
  }

  predicate NewEnvironment(s: State, name: string) {
    ValidName(name) && !EnvironmentNamed(s.environments, name)
  }

  function DoCreateEnvironment(s: State, name: string): State {
    if !NewEnvironment(s, name) then s
    else s.(nextId := s.nextId + 1, environments := s.environments[s.nextId := name])
  }

  predicate InUse(s: State, environment: nat) {
    (exists p: Pair :: p in s.assignments && p.0 == environment)
    || (exists x :: x in s.servers && s.servers[x].environment == environment)
  }

  predicate Idle(s: State, environment: nat) {
    environment in s.environments && !InUse(s, environment)
  }

  function DoDeleteEnvironment(s: State, environment: nat): State {
    if !Idle(s, environment) then s
    else s.(environments := s.environments - {environment})
  }

  // ----- assignments -----------------------------------------------------------------------------------------------

  // derive_release_for_content_view
  function ReleaseOf(repositories: map<string, Repository>, view: View): string {
    var members := Members(repositories, view);
    if members == [] then "" else members[0].distribution
  }

  function PrefixOf(environment: string, view: string): string {
    environment + ("/" + view)
  }

  /** One more for every server of the environment that has a beacon. */
  function Bumped(x: Server, environment: nat): Server {
    if x.environment == environment && x.beacon.Some? then
      x.(beacon := Some(x.beacon.value.(serial := x.beacon.value.serial + 1)))
    else x
  }

  function BumpServers(servers: map<nat, Server>, environment: nat): map<nat, Server> {
    map x | x in servers :: Bumped(servers[x], environment)
  }

  /** What do_promote asks of aptly. */
  function PointAt(a: Aptly, prefix: string, release: string, sources: seq<Source>): Option<Aptly> {
    if PublishExists(a, prefix) then SwitchPublish(a, prefix, release, sources)
    else PublishSnapshot(a, prefix, release, sources)
  }

  /** The one commit of a promote or a rollback. */
  function Committed(s: State, p: Pair, a: Assignment, from: Option<nat>, aptly: Aptly): State {
    var row := Row(a.id, a.current, from, s.now);
    s.(assignments := s.assignments[p := a], servers := BumpServers(s.servers, p.0),
       audit := s.audit + [row], history := s.history + [row], aptly := aptly)
  }

  predicate VersionOf(s: State, version: nat, view: nat) {
    version in s.versions && s.versions[version].view == view
  }

  predicate Assignable(s: State, p: Pair, version: nat) {
    && p.0 in s.environments && p.1 in s.views && p !in s.assignments && VersionOf(s, version, p.1)
    && Members(s.repositories, s.views[p.1]) != []
  }

  function NewAssignment(s: State, p: Pair, version: nat): Assignment
    requires p.0 in s.environments && p.1 in s.views
  {
    Assignment(s.nextId, version, ReleaseOf(s.repositories, s.views[p.1]),
               PrefixOf(s.environments[p.0], s.views[p.1].name))
  }

  /** What aptly makes of pointing the assignment at its current version. */
  function Promoted(s: State, a: Assignment): Option<Aptly>
    requires a.current in s.versions
  {
    PointAt(s.aptly, a.prefix, a.release, s.versions[a.current].sources)
  }

  /** create_environment_content_view: the row and its first promote, or nothing. */
  function DoAssign(s: State, p: Pair, version: nat, refused: bool): State {
    if !Assignable(s, p, version) || refused || Promoted(s, NewAssignment(s, p, version)).None? then s
    else
      var a := NewAssignment(s, p, version);
      Committed(s, p, a, None, Promoted(s, a).value).(nextId := s.nextId + 1)
  }

  predicate Promotable(s: State, p: Pair, version: nat) {
    p in s.assignments && VersionOf(s, version, p.1)
  }

  /** do_promote on a pair that is assigned. */
  function DoPromote(s: State, p: Pair, version: nat, refused: bool): State {
    if !Promotable(s, p, version) || refused || Promoted(s, s.assignments[p].(current := version)).None? then s
    else
      var a := s.assignments[p].(current := version);
      Committed(s, p, a, Some(s.assignments[p].current), Promoted(s, a).value)
  }

  predicate EverLive(audit: seq<Row>, assignment: nat, version: nat) {
    exists i :: 0 <= i < |audit| && audit[i].assignment == assignment && audit[i].version == version
  }

  /** The checks of a rollback before it calls aptly. */
  predicate RollbackAccepts(s: State, p: Pair, version: nat) {
    Promotable(s, p, version) && EverLive(s.audit, s.assignments[p].id, version)
  }

  function Switched(s: State, a: Assignment): Option<Aptly>
    requires a.current in s.versions
  {
    SwitchPublish(s.aptly, a.prefix, a.release, s.versions[a.current].sources)
  }

  /** rollback_environment_content_view */
  function DoRollback(s: State, p: Pair, version: nat, refused: bool): State {
    if !RollbackAccepts(s, p, version) || refused || Switched(s, s.assignments[p].(current := version)).None? then s
    else
      var a := s.assignments[p].(current := version);
      Committed(s, p, a, Some(s.assignments[p].current), Switched(s, a).value)
  }

  /** delete_environment_content_view: the row goes; publication and serials stay. */
  function DoUnassign(s: State, p: Pair): State {
    s.(assignments := s.assignments - {p})
  }

  function Since(audit: seq<Row>, threshold: int): seq<Row> {
    if audit == [] then []
    else (if audit[0].time >= threshold then [audit[0]] else []) + Since(audit[1..], threshold)
  }

  /** scheduled_purge_audit_logs */
  function DoPurgeAudit(s: State, retention: nat): State {
    s.(audit := Since(s.audit, s.now - retention))
  }

  // ----- servers --------------------------------------------------------------------------------------------------

  function DoAddServer(s: State, environment: nat): State {
    if environment !in s.environments then s
    else s.(nextId := s.nextId + 1, servers := s.servers[s.nextId := Server(environment, true, None)])
  }

  function DoDecommission(s: State, x: nat): State {
    if x !in s.servers then s else s.(servers := s.servers[x := s.servers[x].(active := false)])
  }

  /** A server that may still act: it exists and is not decommissioned. */
  predicate Authentic(s: State, x: nat) {
    x in s.servers && s.servers[x].active
  }

  /** assign_server_environment */
  function DoReassign(s: State, x: nat, environment: nat): State {
    if !Authentic(s, x) || environment !in s.environments || s.servers[x].environment == environment then s
    else
      var bumped := Bumped(s.servers[x], s.servers[x].environment);
      s.(servers := s.servers[x := bumped.(environment := environment)])
  }

  // _get_or_create_beacon_state
  function WithBeacon(x: Server): Server {
    if x.beacon.Some? then x else x.(beacon := Some(Beacon(1, None)))
  }

  function DoPushFacts(s: State, x: nat): State {
    if !Authentic(s, x) then s
    else s.(servers := s.servers[x := WithBeacon(s.servers[x])])
  }

  function LiveIn(assignments: map<Pair, Assignment>, environment: nat): map<Pair, Assignment> {
    map p: Pair | p in assignments && p.0 == environment :: assignments[p]
  }

  predicate Answered(s: State, x: nat) {
    Authentic(s, x) && s.servers[x].environment in s.environments
  }

  function IssueTo(s: State, x: nat, server: Server): Issue
    requires server.beacon.Some?
  {
    Issue(x, server.beacon.value.serial, server.environment, LiveIn(s.assignments, server.environment))
  }

  function DoCheckin(s: State, x: nat): State {
    if !Answered(s, x) then s
    else
      var server := WithBeacon(s.servers[x]);
      s.(servers := s.servers[x := server], issued := s.issued + [IssueTo(s, x, server)])
  }

  function Reported(x: Server, serial: nat, applied: bool): Server {
    var server := WithBeacon(x);
    if applied then server.(beacon := Some(server.beacon.value.(applied := Some(serial)))) else server
  }

  /** report: `applied` is the outcome being success or no_change. */
  function DoReport(s: State, x: nat, serial: nat, applied: bool): State {
    if !Authentic(s, x) then s
    else s.(servers := s.servers[x := Reported(s.servers[x], serial, applied)])
  }

  // ----- runs -------------------------------------------------------------------------------------------------------

  datatype RepositoryStep =
    | CreateRepository(repository: Repository, refused: bool)
    | UpdateRepository(repository: Repository, calls: nat)
    | DeleteRepository(name: string, refused: bool)
    | SyncMirror(name: string, packages: seq<Package>)

  datatype ViewStep =
    | CreateView(name: string, members: seq<string>)
    | DeleteView(view: nat)
    | AddFilter(view: nat, filter: Filter)
    | DropFilter(view: nat, index: nat)

  datatype VersionStep =
    | Publish(publication: Publication)
    | DeleteVersion(version: nat, budget: nat)

  datatype EnvironmentStep =
    | CreateEnvironment(name: string)
    | DeleteEnvironment(environment: nat)

  datatype AssignmentStep =
    | Assign(pair: Pair, version: nat, refused: bool)
    | Promote(pair: Pair, version: nat, refused: bool)
    | Rollback(pair: Pair, version: nat, refused: bool)
    | Unassign(pair: Pair)
    | PurgeAudit(retention: nat)

  datatype ServerStep =
    | AddServer(environment: nat)
    | Decommission(server: nat)
    | Reassign(server: nat, environment: nat)
    | PushFacts(server: nat)
    | Checkin(server: nat)
    | Report(server: nat, serial: nat, applied: bool)

  datatype Step =
    | OfRepository(repositoryStep: RepositoryStep)
    | OfView(viewStep: ViewStep)
    | OfVersion(versionStep: VersionStep)
    | OfEnvironment(environmentStep: EnvironmentStep)
    | OfAssignment(assignmentStep: AssignmentStep)
    | OfServer(serverStep: ServerStep)
    | Tick(seconds: nat)

  function ApplyRepository(s: State, step: RepositoryStep): State {
    match step
    case CreateRepository(r, refused) => DoCreateRepository(s, r, refused)
    case UpdateRepository(r, calls) => DoUpdateRepository(s, r, calls)
    case DeleteRepository(name, refused) => DoDeleteRepository(s, name, refused)
    case SyncMirror(name, packages) => DoSyncMirror(s, name, packages)
  }

  ghost function ApplyView(s: State, step: ViewStep): State {
    match step
    case CreateView(name, members) => DoCreateView(s, name, members)
    case DeleteView(view) => DoDeleteView(s, view)
    case AddFilter(view, f) => DoAddFilter(s, view, f)
    case DropFilter(view, i) => DoDropFilter(s, view, i)
  }

  ghost function ApplyVersion(s: State, step: VersionStep): State {
    match step
    case Publish(p) => DoPublish(s, p)
    case DeleteVersion(version, budget) => DoDeleteVersion(s, version, budget)
  }

  function ApplyEnvironment(s: State, step: EnvironmentStep): State {
    match step
    case CreateEnvironment(name) => DoCreateEnvironment(s, name)
    case DeleteEnvironment(environment) => DoDeleteEnvironment(s, environment)
  }

  function ApplyAssignment(s: State, step: AssignmentStep): State {
    match step
    case Assign(p, version, refused) => DoAssign(s, p, version, refused)
    case Promote(p, version, refused) => DoPromote(s, p, version, refused)
    case Rollback(p, version, refused) => DoRollback(s, p, version, refused)
    case Unassign(p) => DoUnassign(s, p)
    case PurgeAudit(retention) => DoPurgeAudit(s, retention)
  }

  function ApplyServer(s: State, step: ServerStep): State {
    match step
    case AddServer(environment) => DoAddServer(s, environment)
    case Decommission(x) => DoDecommission(s, x)
    case Reassign(x, environment) => DoReassign(s, x, environment)
    case PushFacts(x) => DoPushFacts(s, x)
    case Checkin(x) => DoCheckin(s, x)
    case Report(x, serial, applied) => DoReport(s, x, serial, applied)
  }

  ghost function Apply(s: State, step: Step): State {
    match step
    case OfRepository(r) => ApplyRepository(s, r)
    case OfView(v) => ApplyView(s, v)
    case OfVersion(v) => ApplyVersion(s, v)
    case OfEnvironment(e) => ApplyEnvironment(s, e)
    case OfAssignment(a) => ApplyAssignment(s, a)
    case OfServer(x) => ApplyServer(s, x)
    case Tick(seconds) => s.(now := s.now + seconds)
  }

  function Init(matcher: Matcher): State {
    State(0, 0, map[], map[], map[], map[], map[], map[], [], Aptly(matcher, map[], map[], {}, map[]), [], map[], [])
  }

  ghost predicate Taken(states: seq<State>, steps: seq<Step>, i: nat)
    requires |states| == |steps| + 1 && i < |steps|
  {
    states[i + 1] == Apply(states[i], steps[i])
  }

  /** The states of a run, step by step, from an empty database and an empty aptly. */
  ghost predicate Trace(states: seq<State>, steps: seq<Step>) {
    && |states| == |steps| + 1 && (exists matcher :: states[0] == Init(matcher))
    && forall i :: 0 <= i < |steps| ==> Taken(states, steps, i)
  }

  ghost predicate Reachable(s: State) {
    exists states, steps :: Trace(states, steps) && states[|steps|] == s
  }
}
