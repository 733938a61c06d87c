/** Runs from an empty database that reach what the theorems speak of. */
module LifecycleExamples {
  import opened Options
  import opened Sorting
  import opened ContentHash
  import opened AptlyServer
  import opened Cut
  import opened Lifecycle
  import opened LifecycleCatalog
  import opened LifecycleFence
  import opened LifecycleRuns
  import opened LifecycleTheorems
  import opened LifecyclePublications
  import opened LifecycleServers

  // ----- a view with one repository ---------------------------------------------------------------------------

  /** A view over the one repository r, without filters and without versions, and r's mirror there. */
  ghost predicate Fresh(s: State, view: nat, r: Repository) {
    && view in s.views && s.views[view].members == [r.name] && s.views[view].filters == []
    && r.name in s.repositories && s.repositories[r.name] == r && r.name in s.aptly.mirrors
    && forall x :: x in s.versions ==> s.versions[x].view != view
  }

  function Once(view: nat): Publication {
    Publication(view, false, "Z", [], true, 1, true)
  }

  function OrderOnce(view: View): Order {
    Order(view.name, 1, "Z", [], [])
  }

  lemma FreshMembers(s: State, view: nat, r: Repository)
    requires Fresh(s, view, r)
    ensures Members(s.repositories, s.views[view]) == [r]
  {
    assert Sorted([r.name], LexLeq) == [r.name];
  }

  lemma FreshCuttable(s: State, view: nat, r: Repository)
    requires Fresh(s, view, r)
    ensures Cuttable(s, Once(view)) && OrderOf(s, Once(view)) == OrderOnce(s.views[view])
  {
    FreshMembers(s, view, r);
    LatestIs(s.versions, view);
  }

  lemma FreshPlan(view: View, r: Repository)
    requires view.filters == []
    ensures var order := OrderOnce(view);
            && Plan(order, [r]) == [FromMirror(r.name, RawName(order, r.name))]
            && Sources(order, [r]) == RepositorySources(order, r)
            && FinalName(order, r.name) == RawName(order, r.name)
  {
  }

  ghost predicate SameButVersions(s: State, s': State) {
    SameCatalog(s, s') && SameTable(s, s') && SameServers(s, s') && s'.aptly.mirrors == s.aptly.mirrors
  }

  lemma FreshPublishes(s: State, view: nat, r: Repository)
    requires Fresh(s, view, r) && r.components == ["main"]
    requires RawName(OrderOnce(s.views[view]), r.name) !in s.aptly.used
    ensures var s', raw := DoPublish(s, Once(view)), RawName(OrderOnce(s.views[view]), r.name);
            && SameButVersions(s, s') && s'.nextId == s.nextId + 1
            && s.nextId in s'.versions && s'.versions == s.versions[s.nextId := s'.versions[s.nextId]]
            && s'.versions[s.nextId].view == view && s'.versions[s.nextId].sources == [Source(raw, "main")]
            && s'.aptly.snapshots == s.aptly.snapshots[raw := s.aptly.mirrors[r.name]]
            && s'.aptly.used == s.aptly.used + {raw}
  {
    FreshMembers(s, view, r);
    FreshCuttable(s, view, r);
    FreshPlan(s.views[view], r);
    FreshExecutes(s, view, r);
  }

  lemma FreshExecutes(s: State, view: nat, r: Repository)
    requires r.name in s.aptly.mirrors && view in s.views
    requires RawName(OrderOnce(s.views[view]), r.name) !in s.aptly.used
    ensures var raw := RawName(OrderOnce(s.views[view]), r.name);
            Execute(s.aptly, [FromMirror(r.name, raw)], 1) == (Created(s.aptly, raw, s.aptly.mirrors[r.name]), 1)
  {
    var raw := RawName(OrderOnce(s.views[view]), r.name);
    assert [FromMirror(r.name, raw)][1..] == [];
  }

  // ----- one request further ------------------------------------------------------------------------------------

  lemma RepositoryHonest(s: State, step: RepositoryStep)
    requires HonestlyReachable(s)
    ensures HonestlyReachable(ApplyRepository(s, step))
  {
    StepHonest(s, OfRepository(step));
  }

  lemma ViewHonest(s: State, step: ViewStep)
    requires HonestlyReachable(s)
    ensures HonestlyReachable(ApplyView(s, step))
  {
    StepHonest(s, OfView(step));
  }

  lemma PublishHonest(s: State, p: Publication)
    requires HonestlyReachable(s)
    ensures HonestlyReachable(DoPublish(s, p))
  {
    StepHonest(s, OfVersion(Publish(p)));
  }

  lemma EnvironmentHonest(s: State, step: EnvironmentStep)
    requires HonestlyReachable(s)
    ensures HonestlyReachable(ApplyEnvironment(s, step))
  {
    StepHonest(s, OfEnvironment(step));
  }

  lemma AssignmentHonest(s: State, step: AssignmentStep)
    requires HonestlyReachable(s)
    ensures HonestlyReachable(ApplyAssignment(s, step))
  {
    StepHonest(s, OfAssignment(step));
  }

  lemma ServerHonest(s: State, step: ServerStep)
    requires HonestlyReachable(s) && HonestReport(s, step)
    ensures HonestlyReachable(ApplyServer(s, step))
  {
    StepHonest(s, OfServer(step));
  }

  lemma AddServerHonest(s: State, environment: nat)
    requires HonestlyReachable(s)
    ensures HonestlyReachable(DoAddServer(s, environment))
  {
    ServerHonest(s, AddServer(environment));
  }

  lemma CheckinHonest(s: State, x: nat)
    requires HonestlyReachable(s)
    ensures HonestlyReachable(DoCheckin(s, x))
  {
    ServerHonest(s, Checkin(x));
  }

  lemma ReportHonest(s: State, x: nat, serial: nat)
    requires HonestlyReachable(s) && WasIssued(s.issued, x, serial)
    ensures HonestlyReachable(DoReport(s, x, serial, true))
  {
    ServerHonest(s, Report(x, serial, true));
  }

  // ----- from nothing to an assigned pair -----------------------------------------------------------------------

  const MAIN := Repository("main", "trixie", ["main"])

  const BASE := View("base", ["main"], [])

  const RAW := RawName(OrderOnce(BASE), "main")

  ghost function WithCatalog(matcher: Matcher, environment: string): State {
    DoCreateView(DoCreateEnvironment(DoCreateRepository(Init(matcher), MAIN, false), environment), "base", ["main"])
  }

  lemma CatalogExample(matcher: Matcher, environment: string)
    requires ValidName(environment)
    ensures var s := WithCatalog(matcher, environment);
            s == Init(matcher).(nextId := 2, repositories := map["main" := MAIN], environments := map[0 := environment],
                                views := map[1 := BASE],
                                aptly := Aptly(matcher, map["main" := []], map[], {}, map[]))
  {
    var s1 := DoCreateRepository(Init(matcher), MAIN, false);
    var s2 := DoCreateEnvironment(s1, environment);
    assert s2.repositories == map["main" := MAIN] && s2.environments == map[0 := environment] && s2.nextId == 1;
    assert Lookup(s2.repositories, ["main"]) == [MAIN];
    assert Admissible(s2, "base", ["main"]);
  }

  lemma CatalogReached(matcher: Matcher, environment: string)
    ensures HonestlyReachable(WithCatalog(matcher, environment))
  {
    var s1 := DoCreateRepository(Init(matcher), MAIN, false);
    InitHonest(matcher);
    RepositoryHonest(Init(matcher), CreateRepository(MAIN, false));
    EnvironmentHonest(s1, CreateEnvironment(environment));
    ViewHonest(DoCreateEnvironment(s1, environment), CreateView("base", ["main"]));
  }

  ghost function Published(matcher: Matcher, environment: string): State {
    DoPublish(WithCatalog(matcher, environment), Once(1))
  }

  /** One environment, one view with one version, and nothing assigned yet. */
  ghost predicate OneVersion(s: State, environment: string) {
    && s.nextId == 3 && s.repositories == map["main" := MAIN] && s.environments == map[0 := environment]
    && s.views == map[1 := BASE] && s.assignments == map[] && s.servers == map[] && s.issued == [] && s.audit == []
    && s.versions.Keys == {2} && s.versions[2].view == 1 && s.versions[2].sources == [Source(RAW, "main")]
    && s.aptly.snapshots == map[RAW := []] && s.aptly.used == {RAW} && s.aptly.mirrors == map["main" := []]
  }

  lemma PublishedExample(matcher: Matcher, environment: string)
    requires ValidName(environment)
    ensures OneVersion(Published(matcher, environment), environment)
    ensures Published(matcher, environment).aptly.published == map[]
  {
    CatalogExample(matcher, environment);
    FreshPublishes(WithCatalog(matcher, environment), 1, MAIN);
  }

  ghost function Assigned(matcher: Matcher, environment: string): State {
    DoAssign(Published(matcher, environment), (0, 1), 2, false)
  }

  function BasePrefix(environment: string): string {
    PrefixOf(environment, "base")
  }

  /** The same with the version live in the environment. */
  ghost predicate OneAssigned(s: State, environment: string) {
    && s.nextId == 4 && s.repositories == map["main" := MAIN] && s.environments == map[0 := environment]
    && s.views == map[1 := BASE] && s.servers == map[] && s.issued == []
    && s.versions.Keys == {2} && s.versions[2].view == 1 && s.versions[2].sources == [Source(RAW, "main")]
    && s.assignments == map[(0, 1) := Assignment(3, 2, "trixie", BasePrefix(environment))]
    && s.aptly.snapshots == map[RAW := []] && s.aptly.used == {RAW} && s.aptly.mirrors == map["main" := []]
    && s.aptly.published == map[(Address(BasePrefix(environment)), "trixie") := [Source(RAW, "main")]]
  }

  lemma OneIsAssignable(s: State, environment: string)
    requires OneVersion(s, environment)
    ensures Assignable(s, (0, 1), 2) && Publishable(s.aptly, s.versions[2].sources)
    ensures NewAssignment(s, (0, 1), 2) == Assignment(3, 2, "trixie", BasePrefix(environment))
  {
    FreshMembersOf(s);
  }

  lemma FreshMembersOf(s: State)
    requires s.repositories == map["main" := MAIN]
    ensures Members(s.repositories, BASE) == [MAIN]
  {
    assert Sorted(["main"], LexLeq) == ["main"];
  }

  lemma OneGoesLive(s: State, environment: string)
    requires OneVersion(s, environment) && s.aptly.published == map[]
    ensures OneAssigned(DoAssign(s, (0, 1), 2, false), environment)
  {
    OneIsAssignable(s, environment);
    var a := NewAssignment(s, (0, 1), 2);
    assert !PublishExists(s.aptly, a.prefix);
    if Promoted(s, a).Some? {
    }
  }

  lemma AssignedExample(matcher: Matcher, environment: string)
    requires ValidName(environment)
    ensures OneAssigned(Assigned(matcher, environment), environment)
  {
    PublishedExample(matcher, environment);
    OneGoesLive(Published(matcher, environment), environment);
  }

  lemma AssignedReached(matcher: Matcher, environment: string)
    ensures HonestlyReachable(Assigned(matcher, environment))
  {
    CatalogReached(matcher, environment);
    PublishHonest(WithCatalog(matcher, environment), Once(1));
    AssignmentHonest(Published(matcher, environment), Assign((0, 1), 2, false));
  }

  // ----- an underscore ----------------------------------------------------------------------------------------------

  /** The underscore's branch at work: a live pair that no promote moves, and that cannot be assigned
      again once it is unassigned. */
  lemma UnderscoreExample(matcher: Matcher)
    ensures var s, p := Assigned(matcher, "qa_1"), (0, 1);
            && Reachable(s) && Promotable(s, p, 2) && Publishable(s.aptly, s.versions[2].sources)
            && DoPromote(s, p, 2, false) == s
            && DoAssign(DoUnassign(s, p), p, 2, false) == DoUnassign(s, p)
  {
    AssignedExample(matcher, "qa_1");
    AssignedReached(matcher, "qa_1");
    HonestIsReachable(Assigned(matcher, "qa_1"));
    UnderscoreStops(Assigned(matcher, "qa_1"));
  }

  lemma UnderscoreStops(s: State)
    requires Reachable(s) && OneAssigned(s, "qa_1")
    ensures var p := (0, 1);
            && Promotable(s, p, 2) && Publishable(s.aptly, s.versions[2].sources)
            && DoPromote(s, p, 2, false) == s && DoAssign(DoUnassign(s, p), p, 2, false) == DoUnassign(s, p)
  {
    var p: Pair := (0, 1);
    assert "qa_1"[2] == '_';
    PromotedAgainIff(s, p, 2);
    AssignedAgainIff(s, p, 2);
    RefusedChangesNothing(DoUnassign(s, p), p, 2);
  }

  lemma RefusedChangesNothing(s: State, p: Pair, version: nat)
    requires p !in DoAssign(s, p, version, false).assignments
    ensures DoAssign(s, p, version, false) == s
  {
    if Assignable(s, p, version) && Promoted(s, NewAssignment(s, p, version)).Some? {
    }
  }

  // ----- a view made again ------------------------------------------------------------------------------------------

  const OTHER := Repository("other", "bookworm", ["main"])

  const REMADE := View("base", ["other"], [])

  /** The view is unassigned and deleted, and made again under its name from another distribution. */
  ghost function Remade(s: State): State {
    DoCreateView(DoCreateRepository(DoDeleteView(DoUnassign(s, (0, 1)), 1), OTHER, false), "base", ["other"])
  }

  lemma RemadeReached(s: State)
    requires HonestlyReachable(s)
    ensures HonestlyReachable(DoPublish(Remade(s), Once(4)))
  {
    var s1 := DoUnassign(s, (0, 1));
    var s2 := DoDeleteView(s1, 1);
    AssignmentHonest(s, Unassign((0, 1)));
    ViewHonest(s1, DeleteView(1));
    RepositoryHonest(s2, CreateRepository(OTHER, false));
    ViewHonest(DoCreateRepository(s2, OTHER, false), CreateView("base", ["other"]));
    PublishHonest(Remade(s), Once(4));
  }

  lemma DeletedExample(s: State)
    requires OneAssigned(s, "qa")
    ensures var t := DoDeleteView(DoUnassign(s, (0, 1)), 1);
            && t.nextId == 4 && t.views == map[] && t.versions == map[] && t.repositories == s.repositories
            && t.environments == s.environments && t.assignments == map[] && t.aptly == s.aptly
  {
    var s1 := DoUnassign(s, (0, 1));
    assert s1.assignments == map[];
    assert VersionsOf(s1.versions, 1) == {2};
  }

  lemma RemadeExample(s: State)
    requires OneAssigned(s, "qa")
    ensures var t := Remade(s);
            && t.nextId == 5 && t.views == map[4 := REMADE] && t.versions == map[] && t.environments == s.environments
            && t.repositories == map["main" := MAIN, "other" := OTHER] && t.assignments == map[]
            && t.aptly == s.aptly.(mirrors := map["main" := [], "other" := []])
  {
    DeletedExample(s);
    var s2 := DoDeleteView(DoUnassign(s, (0, 1)), 1);
    assert Creatable(s2, "other");
    var s3 := DoCreateRepository(s2, OTHER, false);
    assert s3.repositories == map["main" := MAIN, "other" := OTHER];
    assert s3.aptly.mirrors == map["main" := [], "other" := []];
    assert Lookup(s3.repositories, ["other"]) == [OTHER];
    assert Admissible(s3, "base", ["other"]);
  }

  lemma OtherName()
    ensures RawName(OrderOnce(REMADE), "other") != RAW
  {
    assert |RawName(OrderOnce(REMADE), "other")| == |RAW| + 1;
  }

  /** The remade view with its version, not assigned. */
  ghost predicate OneRemade(t: State) {
    && t.views == map[4 := REMADE] && t.environments == map[0 := "qa"] && t.assignments == map[]
    && t.repositories == map["main" := MAIN, "other" := OTHER]
    && 5 in t.versions && t.versions[5].view == 4 && |t.versions[5].sources| == 1
    && t.versions[5].sources[0].snapshot in t.aptly.snapshots
  }

  lemma RemadePublishes(s: State)
    requires OneAssigned(s, "qa")
    ensures var t := DoPublish(Remade(s), Once(4)); OneRemade(t) && t.aptly.published == s.aptly.published
  {
    RemadeExample(s);
    OtherName();
    FreshPublishes(Remade(s), 4, OTHER);
  }

  lemma RemadeIsAssignable(t: State)
    requires OneRemade(t)
    ensures Assignable(t, (0, 4), 5) && Publishable(t.aptly, t.versions[5].sources)
    ensures ReleaseOf(t.repositories, REMADE) == "bookworm"
  {
    assert Sorted(["other"], LexLeq) == ["other"];
    assert Members(t.repositories, REMADE) == [OTHER];
  }

  /** The content view was published for its environment from trixie; made again from bookworm, it
      cannot be assigned there: aptly lists the prefix, and has no such distribution to switch. */
  lemma RemadeViewExample(matcher: Matcher)
    ensures var t, p := DoPublish(Remade(Assigned(matcher, "qa")), Once(4)), (0, 4);
            && Reachable(t) && Assignable(t, p, 5) && Publishable(t.aptly, t.versions[5].sources)
            && DoAssign(t, p, 5, false) == t
  {
    var s := Assigned(matcher, "qa");
    AssignedExample(matcher, "qa");
    AssignedReached(matcher, "qa");
    RemadeReached(s);
    RemadePublishes(s);
    HonestIsReachable(DoPublish(Remade(s), Once(4)));
    RemadeStops(s, DoPublish(Remade(s), Once(4)));
  }

  lemma OnlyTrixie(published: map<(string, string), seq<Source>>, prefix: string, sources: seq<Source>)
    requires published == map[(Address(prefix), "trixie") := sources] && '_' !in prefix
    ensures !Accepts(published, prefix, "bookworm")
  {
    assert |"trixie"| != |"bookworm"|;
    assert (Address(prefix), "trixie") in published;
    assert AnythingAt(published, Address(prefix));
  }

  lemma RemadeStops(s: State, t: State)
    requires OneAssigned(s, "qa") && Reachable(t) && OneRemade(t) && t.aptly.published == s.aptly.published
    ensures Assignable(t, (0, 4), 5) && Publishable(t.aptly, t.versions[5].sources)
    ensures DoAssign(t, (0, 4), 5, false) == t
  {
    RemadeIsAssignable(t);
    OnlyTrixie(t.aptly.published, BasePrefix("qa"), [Source(RAW, "main")]);
    AssignSucceedsIff(t, (0, 4), 5);
    RefusedChangesNothing(t, (0, 4), 5);
  }

  // ----- a server that is told nothing ------------------------------------------------------------------------------

  /** A server joins the environment, asks what is live and reports it applied. */
  ghost function Joined(s: State): State {
    DoReport(DoCheckin(DoAddServer(s, 0), 4), 4, 1, true)
  }

  lemma SerialIsIssued(s: State)
    requires OneAssigned(s, "qa")
    ensures WasIssued(DoCheckin(DoAddServer(s, 0), 4).issued, 4, 1)
  {
    var s1 := DoAddServer(s, 0);
    assert s1.servers[4] == Server(0, true, None);
    assert DoCheckin(s1, 4).issued[0].serial == 1;
  }

  lemma JoinedReached(s: State)
    requires HonestlyReachable(s) && OneAssigned(s, "qa")
    ensures HonestlyReachable(Joined(s))
  {
    AddServerHonest(s, 0);
    CheckinHonest(DoAddServer(s, 0), 4);
    SerialIsIssued(s);
    ReportHonest(DoCheckin(DoAddServer(s, 0), 4), 4, 1);
  }

  lemma JoinedReconciles(s: State)
    requires OneAssigned(s, "qa")
    ensures var t := Joined(s); Reconciled(t, 4) && t.servers[4].environment == 0 && t.assignments == s.assignments
  {
    var s1 := DoAddServer(s, 0);
    assert s1.servers[4] == Server(0, true, None);
  }

  ghost predicate PassesForCurrent(s: State) {
    && HonestlyReachable(DoUnassign(s, (0, 1))) && Reconciled(s, 4) && Reconciled(DoUnassign(s, (0, 1)), 4)
    && s.servers[4].environment == 0
    && LiveIn(s.assignments, 0) != map[] && LiveIn(DoUnassign(s, (0, 1)).assignments, 0) == map[]
  }

  lemma UnassignedServer(s: State)
    requires HonestlyReachable(s) && Reconciled(s, 4) && s.servers[4].environment == 0 && s.assignments.Keys == {(0, 1)}
    ensures PassesForCurrent(s)
  {
    AssignmentHonest(s, Unassign((0, 1)));
    assert (0, 1) in s.assignments;
    assert (0, 1) in LiveIn(s.assignments, 0);
    UnassignPassesTheFence(s, (0, 1), 4);
  }

  lemma JoinedPasses(s: State)
    requires HonestlyReachable(s) && OneAssigned(s, "qa")
    ensures PassesForCurrent(Joined(s))
  {
    JoinedReached(s);
    JoinedReconciles(s);
    UnassignedServer(Joined(s));
  }

  /** In a run of honest servers one of them passes for current although what it applied has been
      unassigned since. */
  lemma UnassignedServerExample(matcher: Matcher)
    ensures PassesForCurrent(Joined(Assigned(matcher, "qa")))
  {
    AssignedExample(matcher, "qa");
    AssignedReached(matcher, "qa");
    JoinedPasses(Assigned(matcher, "qa"));
  }
}
