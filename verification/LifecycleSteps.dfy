/** What each request on the content lifecycle does in a reachable state, by rows: exactly when it goes
    through, what it changes then, and that it changes nothing otherwise. */
module LifecycleSteps {
  import opened Options
  import opened Sorting
  import opened ContentHash
  import opened AptlyServer
  import opened Cut
  import opened Lifecycle
  import opened LifecycleCatalog
  import opened LifecycleSnapshots
  import opened LifecycleAssignments
  import opened LifecycleRuns
  import opened LifecycleTheorems
  import opened LifecyclePublications

  // ----- promote, rollback, assign -----------------------------------------------------------------------------

  /** Every server of the environment that has a beacon row is at the next serial, and no row differs
      otherwise. */
  ghost predicate Raised(servers: map<nat, Server>, servers': map<nat, Server>, environment: nat) {
    && servers'.Keys == servers.Keys
    && forall x :: x in servers ==>
         if servers[x].environment == environment && servers[x].beacon.Some? then
           var b := servers[x].beacon.value;
           servers'[x] == servers[x].(beacon := Some(Beacon(b.serial + 1, b.applied)))
         else servers'[x] == servers[x]
  }

  ghost predicate SameButTable(s: State, s': State) {
    && SameCatalog(s, s') && SameVersions(s, s') && s'.now == s.now && s'.issued == s.issued
    && s'.aptly.mirrors == s.aptly.mirrors
  }

  /** The pair is at a.current: the row says so, aptly publishes its sources where the pair is
      published and nothing else has changed there, one audit row tells it, and the environment's
      servers are due a checkin. */
  ghost predicate WentLive(s: State, s': State, p: Pair, a: Assignment, from: Option<nat>) {
    && SameButTable(s, s') && a.current in s.versions
    && s'.assignments == s.assignments[p := a]
    && s'.aptly.published == s.aptly.published[KeyOf(a) := s.versions[a.current].sources]
    && s'.audit == s.audit + [Row(a.id, a.current, from, s.now)]
    && Raised(s.servers, s'.servers, p.0)
  }

  lemma BumpIsRaise(servers: map<nat, Server>, environment: nat)
    ensures Raised(servers, BumpServers(servers, environment), environment)
  {
  }

  lemma CommittedWentLive(s: State, p: Pair, a: Assignment, from: Option<nat>)
    requires a.current in s.versions
    ensures WentLive(s, Committed(s, p, a, from, Pointed(s.aptly, a.prefix, a.release, s.versions[a.current].sources)),
                     p, a, from)
  {
    BumpIsRaise(s.servers, p.0);
  }

  /** A version of the view whose snapshots are all in aptly. */
  predicate Intact(s: State, view: nat, version: nat) {
    version in s.versions && s.versions[version].view == view
    && Snapshots(s.versions[version].sources) <= s.aptly.snapshots.Keys
  }

  lemma IntactIsPublishable(s: State, view: nat, version: nat)
    requires version in s.versions && s.versions[version].view == view
    requires OneSourcePerComponent(s.versions[version].sources)
    ensures Intact(s, view, version) <==> Publishable(s.aptly, s.versions[version].sources)
  {
    var sources := s.versions[version].sources;
    if Intact(s, view, version) {
      UsableIsPublishable(s, view, version);
    }
  }

  /** A promote takes effect exactly if aptly does not refuse, the version is there with its snapshots,
      and neither name holds an '_'. */
  lemma PromoteIff(s: State, p: Pair, version: nat, refused: bool)
    requires Reachable(s) && p in s.assignments
    ensures p.0 in s.environments && p.1 in s.views
    ensures var s' := DoPromote(s, p, version, refused);
            if !refused && Intact(s, p.1, version) && '_' !in s.environments[p.0] && '_' !in s.views[p.1].name then
              WentLive(s, s', p, s.assignments[p].(current := version), Some(s.assignments[p].current))
            else s' == s
  {
    EveryRunKeeps(s);
    assert KeysOk(s.repositories, s.views, s.environments, s.assignments);
    if version in s.versions && s.versions[version].view == p.1 {
      PromoteGoes(s, p, version, refused);
    }
  }

  lemma PromoteGoes(s: State, p: Pair, version: nat, refused: bool)
    requires TableOk(s) && VersionsOk(s.views, s.versions)
    requires p in s.assignments && version in s.versions && s.versions[version].view == p.1
    ensures p.0 in s.environments && p.1 in s.views
    ensures var s' := DoPromote(s, p, version, refused);
            if !refused && Intact(s, p.1, version) && '_' !in s.environments[p.0] && '_' !in s.views[p.1].name then
              WentLive(s, s', p, s.assignments[p].(current := version), Some(s.assignments[p].current))
            else s' == s
  {
    var a := s.assignments[p].(current := version);
    IntactIsPublishable(s, p.1, version);
    PointAtPoints(s.aptly, a.prefix, a.release, s.versions[version].sources);
    if Publishable(s.aptly, s.versions[version].sources) {
      PromotedAgain(s, p, version);
    }
    if !refused && Promoted(s, a).Some? {
      CommittedWentLive(s, p, a, Some(s.assignments[p].current));
    }
  }

  /** A rollback takes effect exactly if aptly does not refuse and an audit row of the assignment names
      the version. */
  lemma RollbackIff(s: State, p: Pair, version: nat, refused: bool)
    requires Reachable(s) && p in s.assignments
    ensures var s' := DoRollback(s, p, version, refused);
            if !refused && exists i :: 0 <= i < |s.audit| && s.audit[i].assignment == s.assignments[p].id
                                       && s.audit[i].version == version then
              WentLive(s, s', p, s.assignments[p].(current := version), Some(s.assignments[p].current))
            else s' == s
  {
    if EverLive(s.audit, s.assignments[p].id, version) {
      RollbackTargetsSurvive(s, p, version);
      RollbackGoes(s, p, version, refused);
    }
  }

  lemma RollbackGoes(s: State, p: Pair, version: nat, refused: bool)
    requires RollbackAccepts(s, p, version) && Switched(s, s.assignments[p].(current := version)).Some?
    ensures var s' := DoRollback(s, p, version, refused);
            if refused then s' == s
            else WentLive(s, s', p, s.assignments[p].(current := version), Some(s.assignments[p].current))
  {
    CommittedWentLive(s, p, s.assignments[p].(current := version), Some(s.assignments[p].current));
  }

  /** The release a view is published under: the distribution of its member that comes first by name. */
  lemma ReleaseIsTheFirstMembers(s: State, view: nat) returns (first: string)
    requires Reachable(s) && view in s.views
    ensures first in s.views[view].members && first in s.repositories
    ensures forall n :: n in s.views[view].members ==> LexLeq(first, n)
    ensures ReleaseOf(s.repositories, s.views[view]) == s.repositories[first].distribution
  {
    EveryRunKeeps(s);
    assert ViewOk(s.repositories, s.views[view]);
    first := FirstMember(s.repositories, s.views[view]);
  }

  lemma FirstMember(repositories: map<string, Repository>, v: View) returns (first: string)
    requires ViewOk(repositories, v)
    ensures first in v.members && first in repositories && forall n :: n in v.members ==> LexLeq(first, n)
    ensures ReleaseOf(repositories, v) == repositories[first].distribution
  {
    var sorted := Sorted(v.members, LexLeq);
    assert |sorted| == |multiset(sorted)| == |multiset(v.members)| == |v.members|;
    first := sorted[0];
    SortedNames(v.members, first);
    LexIsTotalOrder();
    SortedAscends(v.members, LexLeq);
    forall n | n in v.members ensures LexLeq(first, n) {
      assert n in multiset(sorted);
      HeadIsLeast(sorted, n, LexLeq);
    }
  }

  /** An assign takes effect exactly if aptly does not refuse, environment, view and version are there
      with the version's snapshots, the pair is not assigned, and aptly accepts a publication at its
      prefix and release. */
  lemma AssignIff(s: State, p: Pair, version: nat, refused: bool)
    requires Reachable(s)
    ensures var s' := DoAssign(s, p, version, refused);
            if !refused && p.0 in s.environments && p.1 in s.views && p !in s.assignments && Intact(s, p.1, version)
               && Accepts(s.aptly.published, s.environments[p.0] + ("/" + s.views[p.1].name),
                          ReleaseOf(s.repositories, s.views[p.1])) then
              && s'.nextId == s.nextId + 1
              && WentLive(s, s', p, Assignment(s.nextId, version, ReleaseOf(s.repositories, s.views[p.1]),
                                               s.environments[p.0] + ("/" + s.views[p.1].name)), None)
            else s' == s
  {
    EveryRunKeeps(s);
    EveryAddressIsOne(s);
    AssignGoes(s, p, version, refused);
  }

  lemma AssignGoes(s: State, p: Pair, version: nat, refused: bool)
    requires AddressesOk(s.aptly.published) && CatalogOk(s) && VersionsOk(s.views, s.versions)
    ensures var s' := DoAssign(s, p, version, refused);
            if !refused && p.0 in s.environments && p.1 in s.views && p !in s.assignments && Intact(s, p.1, version)
               && Accepts(s.aptly.published, s.environments[p.0] + ("/" + s.views[p.1].name),
                          ReleaseOf(s.repositories, s.views[p.1])) then
              && s'.nextId == s.nextId + 1
              && WentLive(s, s', p, Assignment(s.nextId, version, ReleaseOf(s.repositories, s.views[p.1]),
                                               s.environments[p.0] + ("/" + s.views[p.1].name)), None)
            else s' == s
  {
    if p.0 in s.environments && p.1 in s.views && p !in s.assignments && VersionOf(s, version, p.1) {
      var a := NewAssignment(s, p, version);
      assert ViewOk(s.repositories, s.views[p.1]);
      var first := FirstMember(s.repositories, s.views[p.1]);
      SortedNames(s.views[p.1].members, first);
      IntactIsPublishable(s, p.1, version);
      PointAtIff(s.aptly, a.prefix, a.release, s.versions[version].sources);
      PointAtPoints(s.aptly, a.prefix, a.release, s.versions[version].sources);
      if !refused && Promoted(s, a).Some? {
        CommittedWentLive(s, p, a, None);
      }
    }
  }

  // ----- deleting a version -------------------------------------------------------------------------------------

  ghost predicate SameButSnapshots(s: State, s': State) {
    && SameCatalog(s, s') && SameTable(s, s') && SameServers(s, s') && s'.nextId == s.nextId
    && s'.aptly.mirrors == s.aptly.mirrors && s'.aptly.used == s.aptly.used
  }

  /** Live for some pair, or recorded as once live by an audit row that is left. */
  ghost predicate WasLive(s: State, version: nat) {
    (exists p :: p in s.assignments && s.assignments[p].current == version)
    || (exists i :: 0 <= i < |s.audit| && s.audit[i].version == version)
  }

  function Shorter(names: seq<string>, budget: nat): nat {
    if budget < |names| then budget else |names|
  }

  ghost predicate NamesGone(s: State, s': State, names: seq<string>, k: nat)
    requires k <= |names|
  {
    && SameButSnapshots(s, s')
    && s'.aptly.snapshots.Keys == s.aptly.snapshots.Keys - (set i | 0 <= i < k :: names[i])
    && forall n :: n in s'.aptly.snapshots ==> s'.aptly.snapshots[n] == s.aptly.snapshots[n]
  }

  /** Deleting a version that was never live anywhere takes its names out of aptly in order, as many as
      aptly carries out, and the row with the last of them; any other version it leaves alone. */
  lemma DeleteVersionIff(s: State, version: nat, budget: nat)
    requires Reachable(s) && version in s.versions
    ensures var s', names := DoDeleteVersion(s, version, budget), s.versions[version].names;
            if WasLive(s, version) then s' == s
            else
              && NamesGone(s, s', names, Shorter(names, budget))
              && s'.versions == if budget >= |names| then s.versions - {version}
                                else s.versions[version := s.versions[version].(names := names[budget..])]
  {
    EveryRunKeeps(s);
    CutSays(s, version);
    AllDeleted(s.aptly, s.versions[version].names, budget, s.cuts[version]);
    DeleteGoes(s, version, budget);
  }

  lemma DeleteGoes(s: State, version: nat, budget: nat)
    requires version in s.versions
    requires var names := s.versions[version].names;
             DeleteAll(s.aptly, names, budget).1 == names[Shorter(names, budget)..]
    ensures var s', names := DoDeleteVersion(s, version, budget), s.versions[version].names;
            if WasLive(s, version) then s' == s
            else
              && NamesGone(s, s', names, Shorter(names, budget))
              && s'.versions == if budget >= |names| then s.versions - {version}
                                else s.versions[version := s.versions[version].(names := names[budget..])]
  {
    if Deletable(s, version) {
      DeletesInOrder(s.aptly, s.versions[version].names, budget);
    }
  }

  /** Names that are all in aptly, each once, are deleted until the calls run out. */
  lemma AllDeleted(a: Aptly, names: seq<string>, budget: nat, cut: seq<string>)
    requires |names| <= |cut| && names == cut[|cut| - |names|..] && Distinct(cut)
    requires forall i :: 0 <= i < |cut| ==> (cut[i] in a.snapshots <==> i >= |cut| - |names|)
    ensures DeleteAll(a, names, budget).1 == names[Shorter(names, budget)..]
  {
    assert forall i :: 0 <= i < |names| ==> names[i] == cut[|cut| - |names| + i];
    DeletesUntil(a, names, budget);
  }

  lemma {:induction false} DeletesUntil(a: Aptly, names: seq<string>, budget: nat)
    requires Distinct(names) && forall i :: 0 <= i < |names| ==> names[i] in a.snapshots
    ensures DeleteAll(a, names, budget).1 == names[Shorter(names, budget)..]
    decreases |names|
  {
    if names != [] && budget > 0 {
      DeletesUntil(DeleteSnapshot(a, names[0]).value, names[1..], budget - 1);
    }
  }

  // ----- repositories, views and environments -----------------------------------------------------------------

  /** A repository is replaced or deleted only while no view names it and its mirror is there; the
      mirror goes with the row, and an update leaves an empty one. */
  lemma RepositoryIff(s: State, r: Repository, refused: bool)
    ensures var s' := DoDeleteRepository(s, r.name, refused);
            if r.name in s.repositories && r.name in s.aptly.mirrors && !refused
               && forall v :: v in s.views ==> r.name !in s.views[v].members then
              && s'.repositories == s.repositories - {r.name} && s'.aptly.mirrors == s.aptly.mirrors - {r.name}
              && DoUpdateRepository(s, r, 2).repositories == s.repositories[r.name := r]
              && DoUpdateRepository(s, r, 2).aptly.mirrors == s.aptly.mirrors[r.name := []]
            else s' == s && (!refused ==> DoUpdateRepository(s, r, 2) == s)
  {
    assert Referenced(s.views, r.name) <==> exists v :: v in s.views && r.name in s.views[v].members;
  }

  lemma CreateRepositoryIff(s: State, r: Repository, refused: bool)
    ensures var s' := DoCreateRepository(s, r, refused);
            if ValidName(r.name) && r.name !in s.repositories && r.name !in s.aptly.mirrors && !refused then
              s'.repositories == s.repositories[r.name := r] && s'.aptly.mirrors == s.aptly.mirrors[r.name := []]
            else s' == s
  {
  }

  /** Filters are added at the end and taken from their place. */
  lemma FiltersChange(s: State, view: nat, f: Filter, i: nat)
    requires view in s.views
    ensures var added, dropped := DoAddFilter(s, view, f), DoDropFilter(s, view, i);
            var before := s.views[view].filters;
            && added.views[view].filters == before + [f]
            && (i < |before| ==> dropped.views[view].filters == before[..i] + before[i + 1..])
            && (i >= |before| ==> dropped == s)
            && added.views - {view} == s.views - {view} == dropped.views - {view}
  {
  }

  /** An environment can be created under a valid name that no other has. */
  lemma CreateEnvironmentIff(s: State, name: string)
    ensures var s' := DoCreateEnvironment(s, name);
            if ValidName(name) && forall e :: e in s.environments ==> s.environments[e] != name then
              s'.nextId == s.nextId + 1 && s'.environments == s.environments[s.nextId := name]
            else s' == s
  {
    if NewEnvironment(s, name) {
    }
  }

  /** And deleted while no pair and no server points at it. */
  lemma DeleteEnvironmentIff(s: State, environment: nat)
    ensures var s' := DoDeleteEnvironment(s, environment);
            if environment in s.environments && (forall p: Pair :: p in s.assignments ==> p.0 != environment)
               && (forall x :: x in s.servers ==> s.servers[x].environment != environment) then
              s'.environments == s.environments - {environment}
            else s' == s
  {
    if Idle(s, environment) {
    }
  }

  // ----- servers ------------------------------------------------------------------------------------------------

  /** A server is added to an environment that is there, active and without a beacon row; facts give
      an active one its row, at serial one with nothing applied; decommissioning only switches it off. */
  lemma ServerRows(s: State, environment: nat, x: nat)
    ensures environment in s.environments ==>
              DoAddServer(s, environment).servers == s.servers[s.nextId := Server(environment, true, None)]
    ensures environment !in s.environments ==> DoAddServer(s, environment) == s
    ensures x in s.servers ==>
              && DoDecommission(s, x).servers == s.servers[x := s.servers[x].(active := false)]
              && DoPushFacts(s, x).servers ==
                   if s.servers[x].active && s.servers[x].beacon.None? then
                     s.servers[x := s.servers[x].(beacon := Some(Beacon(1, None)))]
                   else s.servers
    ensures x !in s.servers ==> DoDecommission(s, x) == s && DoPushFacts(s, x) == s
  {
  }
}
