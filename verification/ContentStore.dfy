/** The handlers and tasks of the content lifecycle, row by row as the code goes; each is proved to be
    the step of Lifecycle that every run is made of. */
module ContentStore {
  import opened Options
  import opened Sorting
  import opened ContentHash
  import opened AptlyServer
  import opened Cut
  import opened CutProofs
  import opened Lifecycle
  import opened LifecycleCatalog
  import opened LifecycleAudit
  import opened LifecyclePublish
  import opened LifecycleSteps

  /** list.remove */
  function RemoveFirst(s: seq<string>, x: string): seq<string> {
    if s == [] then [] else if s[0] == x then s[1..] else [s[0]] + RemoveFirst(s[1..], x)
  }

  class Store {
    var now: nat
    var nextId: nat
    var repositories: map<string, Repository>
    var views: map<nat, View>
    var versions: map<nat, Version>
    var environments: map<nat, string>
    var assignments: map<Pair, Assignment>
    var servers: map<nat, Server>
    var audit: seq<Row>
    var aptly: Aptly
    ghost var history: seq<Row>
    ghost var cuts: map<nat, seq<string>>
    ghost var issued: seq<Issue>

    ghost function Now(): State
      reads this
    {
      State(now, nextId, repositories, views, versions, environments, assignments, servers, audit, aptly,
            history, cuts, issued)
    }

    constructor (matcher: Matcher)
      ensures Now() == Init(matcher)
    {
      now, nextId, repositories, views, versions, environments := 0, 0, map[], map[], map[], map[];
      assignments, servers, audit, aptly := map[], map[], [], Aptly(matcher, map[], map[], {}, map[]);
      history, cuts, issued := [], map[], [];
    }

    // ----- assignments ------------------------------------------------------------------------------------

    // _bump_config_serial_for_environment_servers
    method BumpConfigSerials(environment: nat)
      modifies this`servers
      ensures servers == BumpServers(old(servers), environment)
      ensures Raised(old(servers), servers, environment)
    {
      var todo := servers.Keys;
      while todo != {}
        invariant todo <= servers.Keys == old(servers).Keys
        invariant forall x :: x in servers ==>
                    servers[x] == if x in todo then old(servers)[x] else Bumped(old(servers)[x], environment)
        decreases |todo|
      {
        var x: nat :| x in todo;
        var server := servers[x];
        if server.environment == environment {
          if server.beacon.Some? {
            var beacon := server.beacon.value;
            servers := servers[x := server.(beacon := Some(beacon.(serial := beacon.serial + 1)))];
          }
        }
        todo := todo - {x};
      }
    }

    /** The rows of a promote or rollback that aptly has carried out. */
    method Commit(p: Pair, a: Assignment, from: Option<nat>)
      modifies this`assignments, this`servers, this`audit, this`history
      ensures assignments == old(assignments)[p := a] && servers == BumpServers(old(servers), p.0)
      ensures audit == old(audit) + [Row(a.id, a.current, from, now)]
      ensures history == old(history) + [Row(a.id, a.current, from, now)]
    {
      assignments := assignments[p := a];
      BumpConfigSerials(p.0);
      audit := audit + [Row(a.id, a.current, from, now)];
      history := history + [Row(a.id, a.current, from, now)];
    }

    // publish_exists
    method FindPublication(prefix: string) returns (found: bool)
      ensures found == PublishExists(aptly, prefix)
    {
      var todo := aptly.published.Keys;
      while todo != {}
        invariant todo <= aptly.published.Keys
        invariant forall key :: key in aptly.published && key !in todo ==> Listed(key.0) != prefix
        decreases |todo|
      {
        var key :| key in todo;
        if Listed(key.0) == prefix {
          return true;
        }
        todo := todo - {key};
      }
      found := false;
    }

    // do_promote; None stands for the AptlyError
    method Point(p: Pair, a: Assignment, from: Option<nat>, refused: bool) returns (done: bool)
      requires a.current in versions
      modifies this`assignments, this`servers, this`audit, this`history, this`aptly
      ensures done == (!refused && Promoted(old(Now()), a).Some?)
      ensures Now() == if done then Committed(old(Now()), p, a, from, Promoted(old(Now()), a).value) else old(Now())
    {
      var sources := versions[a.current].sources;
      var alreadyPublished := FindPublication(a.prefix);
      var result: Option<Aptly>;
      if alreadyPublished {
        result := SwitchPublish(aptly, a.prefix, a.release, sources);
      } else {
        result := PublishSnapshot(aptly, a.prefix, a.release, sources);
      }
      if refused || result.None? {
        return false;
      }
      aptly := result.value;
      Commit(p, a, from);
      done := true;
    }

    // create_environment_content_view
    method Assign(p: Pair, version: nat, refused: bool) returns (done: bool)
      modifies this
      ensures Now() == DoAssign(old(Now()), p, version, refused)
      ensures done <==> p in assignments && p !in old(assignments)
    {
      if p.0 !in environments || p.1 !in views || p in assignments {
        return false;
      }
      if version !in versions || versions[version].view != p.1 {
        return false;
      }
      if Members(repositories, views[p.1]) == [] {
        return false;
      }
      var a := Assignment(nextId, version, ReleaseOf(repositories, views[p.1]),
          PrefixOf(environments[p.0], views[p.1].name));
      done := Point(p, a, None, refused);
      if done {
        nextId := nextId + 1;
      }
    }

    method WasEverLive(assignment: nat, version: nat) returns (found: bool)
      ensures found == EverLive(audit, assignment, version)
    {
      var everLive: set<nat> := {};
      for i := 0 to |audit|
        invariant forall v :: v in everLive <==> EverLive(audit[..i], assignment, v)
      {
        if audit[i].assignment == assignment {
          everLive := everLive + {audit[i].version};
        }
        forall v ensures v in everLive <==> EverLive(audit[..i + 1], assignment, v) {
          OneMoreRow(audit, i, assignment, v);
        }
      }
      assert audit[..|audit|] == audit;
      found := version in everLive;
    }

    // rollback_environment_content_view
    method Rollback(p: Pair, version: nat, refused: bool) returns (done: bool)
      modifies this
      ensures Now() == DoRollback(old(Now()), p, version, refused)
      ensures done <==>
                && p in old(assignments) && version in old(versions) && old(versions)[version].view == p.1 && !refused
                && (exists i :: 0 <= i < |old(audit)| && old(audit)[i].assignment == old(assignments)[p].id
                                && old(audit)[i].version == version)
                && Switched(old(Now()), old(assignments)[p].(current := version)).Some?
      ensures if done then Recorded(old(Now()), Now(), p, version) else Now() == old(Now())
    {
      if p !in assignments || version !in versions || versions[version].view != p.1 {
        return false;
      }
      var a := assignments[p];
      var everLive := WasEverLive(a.id, version);
      if !everLive {
        return false;
      }
      var result := SwitchPublish(aptly, a.prefix, a.release, versions[version].sources);
      if refused || result.None? {
        return false;
      }
      aptly := result.value;
      Commit(p, a.(current := version), Some(a.current));
      done := true;
    }

    // delete_environment_content_view
    method Unassign(p: Pair) returns (done: bool)
      modifies this`assignments
      ensures Now() == DoUnassign(old(Now()), p)
      ensures done <==> p in old(assignments)
      ensures p !in assignments && forall q :: q != p ==> (q in assignments <==> q in old(assignments))
      ensures forall q :: q in assignments ==> assignments[q] == old(assignments[q])
      ensures servers == old(servers) && audit == old(audit) && aptly.published == old(aptly.published)
    {
      if p !in assignments {
        assert assignments - {p} == assignments;
        return false;
      }
      assignments := assignments - {p};
      done := true;
    }

    // ----- publishing -----------------------------------------------------------------------------------------

    // The query for the latest version, by number.
    method FindLatest(view: nat) returns (latest: Option<nat>)
      requires VersionsOk(views, versions)
      ensures latest == Latest(versions, view)
    {
      latest := None;
      var todo := versions.Keys;
      while todo != {}
        invariant todo <= versions.Keys
        invariant latest.None? ==> forall x :: x in versions && x !in todo ==> versions[x].view != view
        invariant latest.Some? ==> latest.value in versions && versions[latest.value].view == view
        invariant latest.Some? ==> forall x :: x in versions && x !in todo && versions[x].view == view ==>
                                     versions[x].number <= versions[latest.value].number
        decreases |todo|
      {
        var x: nat :| x in todo;
        if versions[x].view == view && (latest.None? || versions[x].number > versions[latest.value].number) {
          latest := Some(x);
        }
        todo := todo - {x};
      }
      LatestIs(versions, view);
      if latest.Some? {
        assert IsLatest(versions, view, latest.value);
        TheLatest(versions, views, view, latest.value);
      }
    }

    /** One creating call, if aptly still answers and takes it. */
    method Create(c: Creation, budget: nat) returns (ok: bool)
      modifies this`aptly
      ensures ok <==> budget > 0 && Perform(old(aptly), c).Some?
      ensures aptly == if ok then Perform(old(aptly), c).value else old(aptly)
    {
      var created: Option<Aptly>;
      match c {
        case FromMirror(mirror, name) => created := CreateSnapshotFromMirror(aptly, mirror, name);
        case Filtered(source, name, query) => created := CreateFilteredSnapshot(aptly, source, name, query);
      }
      ok := budget > 0 && created.Some?;
      if ok {
        aptly := created.value;
      }
    }

    // The body of do_publish's loop over the repositories.
    method CutRepository(order: Order, r: Repository, budget: nat) returns (ok: bool, left: nat,
                         names: seq<string>, snapshot: string)
      modifies this`aptly
      ensures Progress(old(aptly), RepositoryPlan(order, r), budget, aptly, left, names, ok)
      ensures ok ==> |names| == |RepositoryPlan(order, r)| && snapshot == FinalName(order, r.name)
    {
      var raw := RawName(order, r.name);
      ghost var plan := RepositoryPlan(order, r);
      ghost var before := aptly;
      left, names, snapshot := budget, [], raw;
      Begun(before, plan, budget);
      ok := Create(FromMirror(r.name, raw), left);
      Advance(before, plan, budget, before, left, names, ok);
      if !ok {
        return;
      }
      left, names := left - 1, [raw];
      for i := 0 to |order.filters|
        invariant Progress(before, plan, budget, aptly, left, names, ok)
        invariant ok && |names| == i + 1 && snapshot == NameAfter(raw, i, |order.filters|)
      {
        var dest := FilteredName(raw, i, |order.filters|);
        var c := Filtered(snapshot, dest, FilterQuery(order.errata, r.distribution, order.filters[i]));
        FilterPlanIs(order, r, i);
        ghost var a := aptly;
        ok := Create(c, left);
        Advance(before, plan, budget, a, left, names, ok);
        if !ok {
          return;
        }
        left, names, snapshot := left - 1, names + [dest], dest;
      }
      RepositoryPlanNames(order, r);
    }

    // do_publish's loop: every snapshot of the cut, and the sources to record.
    method CutSnapshots(order: Order, members: seq<Repository>, budget: nat)
      returns (ok: bool, left: nat, names: seq<string>, sources: seq<Source>)
      modifies this`aptly
      ensures Progress(old(aptly), Plan(order, members), budget, aptly, left, names, ok)
      ensures ok ==> |names| == |Plan(order, members)| && sources == Sources(order, members)
    {
      ghost var plan := Plan(order, members);
      ghost var before := aptly;
      ok, left, names, sources := true, budget, [], [];
      Begun(before, plan, budget);
      assert members[0..] == members && [] + Sources(order, members) == Sources(order, members);
      for i := 0 to |members|
        invariant ok && Progress(before, plan, budget, aptly, left, names, true)
        invariant plan[|names|..] == Plan(order, members[i..])
        invariant sources + Sources(order, members[i..]) == Sources(order, members)
      {
        ghost var a, part, rest := aptly, RepositoryPlan(order, members[i]), Plan(order, members[i + 1..]);
        NextRepository(order, members, i);
        var left', names', snapshot;
        ok, left', names', snapshot := CutRepository(order, members[i], left);
        Deeper(before, plan, budget, a, left, names, part, rest, aptly, left', names', ok);
        left, names := left', names + names';
        if !ok {
          return;
        }
        MoreSources(sources, ComponentSources(snapshot, members[i].components), Sources(order, members[i + 1..]));
        sources := sources + ComponentSources(snapshot, members[i].components);
      }
    }

    // get_mirror_packages for every member; None is the first AptlyError.
    method ReadMirrors(members: seq<Repository>, readable: bool) returns (readings: Option<seq<Reading>>)
      requires members != []
      ensures readings == if readable && Mirrored(aptly, members) then Some(Readings(aptly, members)) else None
    {
      var read: seq<Reading> := [];
      for i := 0 to |members|
        invariant read == Readings(aptly, members)[..i]
        invariant i > 0 ==> readable
        invariant forall j :: 0 <= j < i ==> members[j].name in aptly.mirrors
      {
        if !readable || members[i].name !in aptly.mirrors {
          return None;
        }
        read := read + [Reading(members[i].name, aptly.mirrors[members[i].name])];
      }
      assert Readings(aptly, members)[..|members|] == Readings(aptly, members);
      readings := Some(read);
    }

    // package_count: one get_snapshot_packages for each distinct snapshot.
    method CountPackages(names: set<string>) returns (count: Option<nat>)
      ensures count.Some? <==> names <= aptly.snapshots.Keys
      ensures count.Some? ==> count.value == PackageCount(aptly, names)
    {
      var total, todo := 0, names;
      while todo != {}
        invariant todo <= names && names - todo <= aptly.snapshots.Keys
        invariant names <= aptly.snapshots.Keys ==> total + PackageCount(aptly, todo) == PackageCount(aptly, names)
        decreases |todo|
      {
        var name :| name in todo;
        if name !in aptly.snapshots {
          return None;
        }
        if names <= aptly.snapshots.Keys {
          CountOneMore(aptly, todo, name);
        }
        total, todo := total + |aptly.snapshots[name]|, todo - {name};
      }
      count := Some(total);
    }

    // The snapshots of a cut and their count; no count is an AptlyError.
    method CutAndCount(p: Publication, w: Work)
      returns (count: Option<nat>, names: seq<string>, sources: seq<Source>)
      modifies this`aptly
      ensures aptly == Execute(old(aptly), Plan(w.order, w.members), p.budget).0
      ensures count.Some? <==> AllMade(old(aptly), p, w)
      ensures count.Some? ==> names == Names(Plan(w.order, w.members)) && sources == Sources(w.order, w.members)
      ensures count.Some? ==> count.value == PackageCount(aptly, Snapshots(sources))
    {
      count := None;
      ghost var before := aptly;
      var ok, left;
      ok, left, names, sources := CutSnapshots(w.order, w.members, p.budget);
      ProgressEnds(before, Plan(w.order, w.members), p.budget, aptly, left, names, ok);
      if ok && p.countable {
        count := CountPackages(Snapshots(sources));
      }
    }

    // The second half of do_publish: the snapshots, the count, the row.
    method CutVersion(p: Publication, w: Work) returns (cut: bool)
      modifies this`aptly, this`nextId, this`versions, this`cuts
      ensures Now() == Cutting(old(Now()), p, w) && cut == AllMade(old(aptly), p, w)
    {
      var count, names, sources := CutAndCount(p, w);
      cut := count.Some?;
      if cut {
        versions := versions[nextId := Version(p.view, w.order.number, sources, w.content, count.value, names)];
        cuts := cuts[nextId := names];
        nextId := nextId + 1;
      }
    }

    // The first half of do_publish: an existing version to return, or what there is to cut.
    method Prepare(p: Publication) returns (version: Option<nat>, work: Option<Work>)
      requires VersionsOk(views, versions)
      ensures work.Some? <==> Cuttable(Now(), p)
      ensures work.Some? ==> work.value == WorkOf(Now(), p)
      ensures version == if UpToDate(Now(), p) then Latest(versions, p.view) else None
    {
      version, work := None, None;
      if p.view !in views {
        return;
      }
      var members := Members(repositories, views[p.view]);
      if members == [] {
        return;
      }
      var readings := ReadMirrors(members, p.readable);
      if readings.None? {
        return;
      }
      var content := Content(readings.value);
      var latest := FindLatest(p.view);
      LatestIs(versions, p.view);
      if !p.force && latest.Some? && versions[latest.value].content == content {
        version := latest;
        return;
      }
      var number := if latest.None? then 1 else versions[latest.value].number + 1;
      work := Some(Work(Order(views[p.view].name, number, p.stamp, views[p.view].filters, p.errata), members, content));
    }

    // do_publish; no version is the AptlyError, or the view without repositories
    method Publish(p: Publication) returns (version: Option<nat>, cut: bool)
      requires VersionsOk(views, versions)
      modifies this`aptly, this`nextId, this`versions, this`cuts
      ensures Now() == DoPublish(old(Now()), p)
      ensures version == PublishedVersion(old(Now()), p)
      ensures cut ==> version == Some(old(nextId)) && old(nextId) in versions
      ensures version.Some? && !cut ==> version == Latest(old(versions), p.view) && Now() == old(Now())
    {
      ghost var s := Now();
      var work;
      cut := false;
      version, work := Prepare(p);
      if work.Some? {
        var next := nextId;
        cut := CutVersion(p, work.value);
        CutIsPublish(s, p);
        version := if cut then Some(next) else None;
      }
    }

    // promote_environment_content_view, with a version given
    method PromoteVersion(p: Pair, version: nat, refused: bool) returns (done: bool)
      modifies this
      ensures Now() == DoPromote(old(Now()), p, version, refused)
      ensures done <==> Goes(old(Now()), p, version, refused)
      ensures if done then Recorded(old(Now()), Now(), p, version) else Now() == old(Now())
    {
      if p !in assignments || version !in versions || versions[version].view != p.1 {
        return false;
      }
      var from := assignments[p].current;
      done := Point(p, assignments[p].(current := version), Some(from), refused);
    }

    // promote_environment_content_view: without a version it publishes first, unforced.
    method Promote(p: Pair, version: Option<nat>, publication: Publication, refused: bool) returns (done: bool)
      requires VersionsOk(views, versions) && publication.view == p.1 && !publication.force
      modifies this
      ensures Now() == Promoting(old(Now()), p, version, publication, refused)
      ensures version.Some? ==> (done <==> Goes(old(Now()), p, version.value, refused))
      ensures version.None? ==>
                var s, answer := old(Now()), PublishedVersion(old(Now()), publication);
                done <==>
                  p in old(assignments) && answer.Some? && Goes(DoPublish(s, publication), p, answer.value, refused)
      ensures done ==> p in old(assignments) && p in assignments
      ensures done && version.Some? ==> assignments[p].current == version.value
      ensures done && version.None? ==> Some(assignments[p].current) == PublishedVersion(old(Now()), publication)
      ensures !done ==> assignments == old(assignments) && servers == old(servers) && audit == old(audit)
    {
      done := false;
      if p !in assignments {
        return;
      }
      var chosen := version;
      if version.None? {
        var cut;
        chosen, cut := Publish(publication);
      }
      if chosen.Some? {
        done := PromoteVersion(p, chosen.value, refused);
      }
    }

    // ----- deleting ----------------------------------------------------------------------------------------------

    // version_ever_promoted
    method VersionEverPromoted(version: nat) returns (promoted: bool)
      ensures promoted <==> EverPromoted(Now(), version)
    {
      if exists p :: p in assignments && assignments[p].current == version {
        return true;
      }
      promoted := exists i :: 0 <= i < |audit| && audit[i].version == version;
    }

    // delete_content_view_version_task
    method DeleteVersion(version: nat, budget: nat) returns (done: bool)
      modifies this`aptly, this`versions
      ensures Now() == DoDeleteVersion(old(Now()), version, budget)
      ensures done <==> version in old(versions) && version !in versions
    {
      if version !in versions {
        return false;
      }
      var promoted := VersionEverPromoted(version);
      if promoted {
        return false;
      }
      var names := versions[version].names;
      var remaining, left := names, budget;
      ghost var before := aptly;
      for i := 0 to |names|
        invariant versions == old(versions) && remaining == names[i..] && i <= budget && left == budget - i
        invariant DeleteAll(before, names, budget) == DeleteAll(aptly, remaining, left)
      {
        var deleted := DeleteSnapshot(aptly, names[i]);
        if left == 0 || deleted.None? {
          versions := versions[version := versions[version].(names := remaining)];
          return false;
        }
        aptly, left := deleted.value, left - 1;
        assert names[i..][0] == names[i] && names[i..][1..] == names[i + 1..];
        remaining := RemoveFirst(remaining, names[i]);
      }
      versions := versions - {version};
      done := true;
    }

    // delete_content_view
    method DeleteView(view: nat) returns (done: bool)
      modifies this`views, this`versions
      ensures Now() == DoDeleteView(old(Now()), view)
      ensures done <==> view in old(views) && forall p: Pair :: p in assignments ==> p.1 != view
      ensures done ==> views == old(views) - {view}
      ensures done ==> forall x :: x in old(versions) ==> (x in versions <==> old(versions)[x].view != view)
      ensures !done ==> views == old(views) && versions == old(versions)
      ensures forall x :: x in versions ==> x in old(versions) && versions[x] == old(versions)[x]
    {
      if view !in views || ViewAssigned(assignments, view) {
        return false;
      }
      versions := versions - VersionsOf(versions, view);
      views := views - {view};
      done := true;
    }

    // scheduled_purge_audit_logs
    method PurgeAudit(retention: nat)
      modifies this`audit
      ensures Now() == DoPurgeAudit(old(Now()), retention)
      ensures forall row :: row in audit <==> row in old(audit) && row.time + retention >= now
      ensures InTime(old(audit), now) ==> IsEnd(audit, old(audit))
      ensures InTime(old(audit), now) ==> forall i :: 0 <= i < |old(audit)| ==>
                (i >= |old(audit)| - |audit| <==> old(audit)[i].time + retention >= now)
    {
      ghost var before := audit;
      audit := Since(audit, now - retention);
      forall row ensures row in audit <==> row in before && row.time + retention >= now {
        SinceHolds(before, now - retention, row);
      }
      if InTime(before, now) {
        SinceIsEnd(before, now - retention);
      }
    }

    // ----- repositories and views ------------------------------------------------------------------------------

    // update_repository_task
    method UpdateRepository(r: Repository, calls: nat) returns (done: bool)
      modifies this`aptly, this`repositories
      ensures Now() == DoUpdateRepository(old(Now()), r, calls)
      ensures done <==>
                && r.name in old(repositories) && r.name in old(aptly).mirrors && calls >= 2
                && forall v :: v in views ==> r.name !in views[v].members
      ensures repositories == if done then old(repositories)[r.name := r] else old(repositories)
      ensures done ==> aptly == old(aptly).(mirrors := old(aptly).mirrors[r.name := []])
    {
      if r.name !in repositories || Referenced(views, r.name) {
        return false;
      }
      if calls == 0 || r.name !in aptly.mirrors {
        return false;
      }
      aptly := aptly.(mirrors := aptly.mirrors - {r.name});
      if calls == 1 {
        return false;
      }
      aptly := aptly.(mirrors := aptly.mirrors[r.name := []]);
      repositories := repositories[r.name := r];
      done := true;
    }

    // create_content_view's component_owners: how many members declare each component, and the check.
    method Collides(members: seq<Repository>) returns (colliding: bool)
      ensures colliding <==> !NoCollision(members)
    {
      var all: seq<string> := [];
      for i := 0 to |members|
        invariant all == Components(members[..i])
      {
        assert members[..i + 1] == members[..i] + [members[i]];
        ComponentsConcat(members[..i], [members[i]]);
        assert Components([members[i]]) == members[i].components + [] == members[i].components;
        all := all + members[i].components;
      }
      assert members[..|members|] == members;
      var owners: multiset<string> := multiset(all);
      CollisionCounts(members);
      colliding := exists c :: c in owners && owners[c] > 1;
      assert colliding <==> !AtMostOnce(owners);
    }

    // create_content_view, up to its commit
    method CreateView(name: string, members: seq<string>) returns (view: Option<nat>)
      modifies this`views, this`nextId
      ensures Now() == DoCreateView(old(Now()), name, members)
      ensures view.Some? <==>
                && ValidName(name) && members != [] && (forall v :: v in old(views) ==> old(views)[v].name != name)
                && (forall i, j :: 0 <= i < j < |members| ==> members[i] != members[j])
                && (forall i :: 0 <= i < |members| ==> members[i] in repositories)
                && NoCollision(Lookup(repositories, members))
      ensures view.Some? ==> view.value == old(nextId) && views == old(views)[view.value := View(name, members, [])]
      ensures view.None? ==> views == old(views)
    {
      if !ValidName(name) || members == [] || ViewNamed(views, name) {
        return None;
      }
      if exists i :: 0 <= i < |members| && members[i] !in repositories {
        return None;
      }
      var colliding := Collides(Lookup(repositories, members));
      if colliding || !Distinct(members) {
        return None;
      }
      views := views[nextId := View(name, members, [])];
      view, nextId := Some(nextId), nextId + 1;
    }

    // ----- servers -----------------------------------------------------------------------------------------------

    // assign_server_environment
    method Reassign(x: nat, environment: nat)
      modifies this`servers
      ensures Now() == DoReassign(old(Now()), x, environment)
      ensures x in old(servers) && old(servers)[x].active && environment in environments ==>
                && servers == old(servers)[x := servers[x]]
                && servers[x].environment == environment && servers[x].active
                && (servers[x].beacon.Some? <==> old(servers)[x].beacon.Some?)
                && (servers[x].beacon.Some? ==>
                      && servers[x].beacon.value.applied == old(servers)[x].beacon.value.applied
                      && servers[x].beacon.value.serial - old(servers)[x].beacon.value.serial ==
                           if old(servers)[x].environment == environment then 0 else 1)
      ensures x !in old(servers) || !old(servers)[x].active || environment !in environments ==> servers == old(servers)
    {
      if x !in servers || !servers[x].active || environment !in environments || servers[x].environment == environment {
        return;
      }
      var server := servers[x];
      if server.beacon.Some? {
        var beacon := server.beacon.value;
        server := server.(beacon := Some(beacon.(serial := beacon.serial + 1)));
      }
      servers := servers[x := server.(environment := environment)];
    }

    // checkin: what the answer says of the content, and the serial it carries
    method Checkin(x: nat) returns (answer: Option<(nat, map<Pair, Assignment>)>)
      modifies this`servers, this`issued
      ensures Now() == DoCheckin(old(Now()), x)
      ensures answer.Some? <==>
                x in old(servers) && old(servers)[x].active && old(servers)[x].environment in environments
      ensures answer.Some? ==>
                var before := old(servers)[x];
                && answer.value.0 == (if before.beacon.Some? then before.beacon.value.serial else 1)
                && servers == (if before.beacon.Some? then old(servers)
                               else old(servers)[x := before.(beacon := Some(Beacon(1, None)))])
                && issued == old(issued) + [Issue(x, answer.value.0, before.environment, answer.value.1)]
                && (forall q: Pair :: q in answer.value.1 <==> q in assignments && q.0 == before.environment)
                && (forall q: Pair :: q in answer.value.1 ==> answer.value.1[q] == assignments[q])
      ensures answer.None? ==> servers == old(servers) && issued == old(issued)
    {
      if x !in servers || !servers[x].active || servers[x].environment !in environments {
        return None;
      }
      var live := LiveIn(assignments, servers[x].environment);
      if servers[x].beacon.None? {
        servers := servers[x := servers[x].(beacon := Some(Beacon(1, None)))];
      }
      var serial := servers[x].beacon.value.serial;
      issued := issued + [Issue(x, serial, servers[x].environment, live)];
      answer := Some((serial, live));
    }

    // report, the part without an action
    method Report(x: nat, serial: nat, applied: bool)
      modifies this`servers
      ensures Now() == DoReport(old(Now()), x, serial, applied)
      ensures x in old(servers) && old(servers)[x].active ==>
                var before := old(servers)[x];
                var b := if before.beacon.Some? then before.beacon.value else Beacon(1, None);
                servers == old(servers)[x := before.(beacon := Some(Beacon(b.serial, if applied then Some(serial)
                                                                                    else b.applied)))]
      ensures x !in old(servers) || !old(servers)[x].active ==> servers == old(servers)
    {
      if x !in servers || !servers[x].active {
        return;
      }
      var beacon := if servers[x].beacon.Some? then servers[x].beacon.value else Beacon(1, None);
      if applied {
        beacon := beacon.(applied := Some(serial));
      }
      servers := servers[x := servers[x].(beacon := Some(beacon))];
    }
  }

  /** A promote to a given version goes through: the pair is assigned, the version is one of its view, and
      aptly takes it. */
  ghost predicate Goes(s: State, p: Pair, version: nat, refused: bool) {
    && p in s.assignments && version in s.versions && s.versions[version].view == p.1 && !refused
    && Promoted(s, s.assignments[p].(current := version)).Some?
  }

  /** The rows of a promote or rollback: the pair's current version, and one more audit row. */
  ghost predicate Recorded(s: State, s': State, p: Pair, version: nat) {
    && p in s.assignments && s'.assignments == s.assignments[p := s.assignments[p].(current := version)]
    && s'.audit == s.audit + [Row(s.assignments[p].id, version, Some(s.assignments[p].current), s.now)]
  }

  /** promote_environment_content_view as steps of a run: a publish that answers with no version stops it. */
  ghost function Promoting(s: State, p: Pair, version: Option<nat>, publication: Publication, refused: bool): State {
    if p !in s.assignments then s
    else if version.Some? then DoPromote(s, p, version.value, refused)
    else if PublishedVersion(s, publication).None? then DoPublish(s, publication)
    else DoPromote(DoPublish(s, publication), p, PublishedVersion(s, publication).value, refused)
  }

  /** What a publish that has something to cut goes by. */
  datatype Work = Work(order: Order, members: seq<Repository>, content: map<string, multiset<Package>>)

  ghost function WorkOf(s: State, p: Publication): Work
    requires p.view in s.views
  {
    var members := Members(s.repositories, s.views[p.view]);
    Work(OrderOf(s, p), members, Content(Readings(s.aptly, members)))
  }

  ghost predicate AllMade(a: Aptly, p: Publication, w: Work) {
    var (b, made) := Execute(a, Plan(w.order, w.members), p.budget);
    made == |Plan(w.order, w.members)| && p.countable && Snapshots(Sources(w.order, w.members)) <= b.snapshots.Keys
  }

  ghost function CutAs(a: Aptly, p: Publication, w: Work): Version
    requires AllMade(a, p, w)
  {
    var b, sources := Execute(a, Plan(w.order, w.members), p.budget).0, Sources(w.order, w.members);
    Version(p.view, w.order.number, sources, w.content, PackageCount(b, Snapshots(sources)),
        Names(Plan(w.order, w.members)))
  }

  /** DoPublish with its parts worked out. */
  ghost function Cutting(s: State, p: Publication, w: Work): State {
    s.(aptly := Execute(s.aptly, Plan(w.order, w.members), p.budget).0,
       nextId := if AllMade(s.aptly, p, w) then s.nextId + 1 else s.nextId,
       versions := if AllMade(s.aptly, p, w) then s.versions[s.nextId := CutAs(s.aptly, p, w)] else s.versions,
       cuts := if AllMade(s.aptly, p, w) then s.cuts[s.nextId := Names(Plan(w.order, w.members))] else s.cuts)
  }

  lemma CutIsPublish(s: State, p: Publication)
    requires Cuttable(s, p)
    ensures Cutting(s, p, WorkOf(s, p)) == DoPublish(s, p)
  {
    assert Complete(s, p) == AllMade(s.aptly, p, WorkOf(s, p));
  }

  lemma {:induction false} ComponentsConcat(s: seq<Repository>, t: seq<Repository>)
    ensures Components(s + t) == Components(s) + Components(t)
  {
    if s == [] {
      assert s + t == t;
    } else {
      assert (s + t)[1..] == s[1..] + t;
      ComponentsConcat(s[1..], t);
    }
  }

  /** Where component i of repository a stands in the list of all of them. */
  function Place(repositories: seq<Repository>, a: nat, i: nat): nat
    requires a < |repositories|
  {
    |Components(repositories[..a])| + i
  }

  lemma PlaceHolds(repositories: seq<Repository>, a: nat, i: nat)
    requires a < |repositories| && i < |repositories[a].components|
    ensures Place(repositories, a, i) < |Components(repositories)|
    ensures Components(repositories)[Place(repositories, a, i)] == repositories[a].components[i]
  {
    ComponentsConcat(repositories[..a], repositories[a..]);
    assert repositories == repositories[..a] + repositories[a..];
  }

  lemma PlaceInjective(repositories: seq<Repository>, a: nat, i: nat, b: nat, j: nat)
    requires a < |repositories| && i < |repositories[a].components|
    requires b < |repositories| && j < |repositories[b].components|
    ensures Place(repositories, a, i) == Place(repositories, b, j) ==> a == b && i == j
  {
    if a < b {
      PlaceBefore(repositories, a, i, b);
    } else if b < a {
      PlaceBefore(repositories, b, j, a);
    }
  }

  lemma PlaceBefore(repositories: seq<Repository>, a: nat, i: nat, b: nat)
    requires a < b < |repositories| && i < |repositories[a].components|
    ensures Place(repositories, a, i) < |Components(repositories[..b])|
  {
    assert repositories[..b][..a] == repositories[..a];
    PlaceHolds(repositories[..b], a, i);
  }

  lemma DistinctMeansNoCollision(repositories: seq<Repository>)
    requires Distinct(Components(repositories))
    ensures NoCollision(repositories)
  {
    forall a, b, i, j | 0 <= a < |repositories| && 0 <= b < |repositories| && 0 <= i < |repositories[a].components|
                        && 0 <= j < |repositories[b].components|
                        && repositories[a].components[i] == repositories[b].components[j]
      ensures a == b && i == j
    {
      PlaceHolds(repositories, a, i);
      PlaceHolds(repositories, b, j);
      PlaceInjective(repositories, a, i, b, j);
    }
  }

  predicate AtMostOnce(owners: multiset<string>) {
    forall c :: c in owners ==> owners[c] <= 1
  }

  lemma CountedTwice(s: seq<string>)
    ensures Distinct(s) <==> AtMostOnce(multiset(s))
  {
    if Distinct(s) {
      forall c | c in multiset(s) ensures multiset(s)[c] <= 1 {
        DistinctCounts(s, c);
      }
    } else {
      var i, j :| 0 <= i < j < |s| && s[i] == s[j];
      TwiceCounts(s, i, j);
      assert s[i] in multiset(s);
    }
  }

  /** Components collide exactly when some component is counted more than once. */
  lemma CollisionCounts(repositories: seq<Repository>)
    ensures NoCollision(repositories) <==> AtMostOnce(multiset(Components(repositories)))
  {
    CountedTwice(Components(repositories));
    if NoCollision(repositories) {
      NoCollisionNoRepeat(repositories);
    }
    if Distinct(Components(repositories)) {
      DistinctMeansNoCollision(repositories);
    }
  }

  function ComponentSources(snapshot: string, components: seq<string>): seq<Source> {
    seq(|components|, i requires 0 <= i < |components| => Source(snapshot, components[i]))
  }

  lemma NextRepository(order: Order, members: seq<Repository>, i: nat)
    requires i < |members|
    ensures Plan(order, members[i..]) == RepositoryPlan(order, members[i]) + Plan(order, members[i + 1..])
    ensures Sources(order, members[i..]) ==
              ComponentSources(FinalName(order, members[i].name), members[i].components)
              + Sources(order, members[i + 1..])
  {
    assert members[i..][1..] == members[i + 1..];
    assert RepositorySources(order, members[i]) ==
        ComponentSources(FinalName(order, members[i].name), members[i].components);
  }

  lemma MoreSources(s: seq<Source>, t: seq<Source>, u: seq<Source>)
    ensures s + (t + u) == (s + t) + u
  {
  }

  lemma {:induction false} ExecuteConcat(a: Aptly, plan: seq<Creation>, more: seq<Creation>, budget: nat)
    ensures var (b, made) := Execute(a, plan, budget);
            && made <= budget
            && Execute(a, plan + more, budget) ==
                 if made == |plan| then Later(Execute(b, more, budget - made), made) else (b, made)
    decreases |plan|
  {
    if plan == [] {
      assert plan + more == more;
    } else if budget > 0 && Perform(a, plan[0]).Some? {
      assert (plan + more)[1..] == plan[1..] + more;
      ExecuteConcat(Perform(a, plan[0]).value, plan[1..], more, budget - 1);
    }
  }

  lemma NamesDeeper(plan: seq<Creation>, k: nat, part: seq<Creation>, rest: seq<Creation>, n: nat)
    requires k <= |plan| && plan[k..] == part + rest && n <= |part|
    ensures k + n <= |plan| && Names(plan)[..k + n] == Names(plan)[..k] + Names(part)[..n]
    ensures plan[k + |part|..] == rest
  {
    assert |plan[k..]| == |part| + |rest|;
    forall i | 0 <= i < n ensures Names(plan)[k + i] == Names(part)[i] {
      assert plan[k + i] == plan[k..][i] == part[i];
    }
    assert plan[k + |part|..] == plan[k..][|part|..];
  }

  lemma PartRan(a: Aptly, part: seq<Creation>, rest: seq<Creation>, budget: nat, a': Aptly)
    requires |part| <= budget && Ran(a, part, budget, a', |part|, true)
    ensures Execute(a, part + rest, budget) == Later(Execute(a', rest, budget - |part|), |part|)
  {
    assert part[|part|..] == [];
    ExecuteConcat(a, part, rest, budget);
  }

  lemma LaterStill(run: (Aptly, nat), m: nat, k: nat)
    ensures Later(Later(run, m), k) == Later(run, k + m)
  {
  }

  lemma RanThrough(before: Aptly, plan: seq<Creation>, budget: nat, a: Aptly, k: nat, part: seq<Creation>,
                   rest: seq<Creation>, a': Aptly)
    requires k <= |plan| && k + |part| <= budget && plan[k..] == part + rest
    requires Ran(before, plan, budget, a, k, true) && Ran(a, part, budget - k, a', |part|, true)
    ensures |plan| == k + |part| + |rest| && Ran(before, plan, budget, a', k + |part|, true)
  {
    NamesDeeper(plan, k, part, rest, |part|);
    RanInTurn(before, plan, budget, a, k, part, rest, a');
    assert |plan[k..]| == |part| + |rest|;
  }

  lemma RanInTurn(before: Aptly, plan: seq<Creation>, budget: nat, a: Aptly, k: nat, part: seq<Creation>,
                  rest: seq<Creation>, a': Aptly)
    requires k <= |plan| && k + |part| <= budget && plan[k..] == part + rest
    requires Ran(before, plan, budget, a, k, true) && Ran(a, part, budget - k, a', |part|, true)
    ensures Execute(before, plan, budget) == Later(Execute(a', rest, budget - k - |part|), k + |part|)
  {
    PartRan(a, part, rest, budget - k, a');
    LaterStill(Execute(a', rest, budget - k - |part|), |part|, k);
  }

  lemma RanOut(before: Aptly, plan: seq<Creation>, budget: nat, a: Aptly, k: nat, part: seq<Creation>,
               rest: seq<Creation>,
               a': Aptly, n: nat)
    requires k <= |plan| && k <= budget && plan[k..] == part + rest && Ran(before, plan, budget, a, k, true)
    requires n <= |part| && n <= budget - k && Ran(a, part, budget - k, a', n, false)
    ensures |plan| == k + |part| + |rest| && Ran(before, plan, budget, a', k + n, false)
  {
    assert |plan[k..]| == |part| + |rest|;
    ExecuteConcat(a, part, rest, budget - k);
  }

  lemma DeeperThrough(before: Aptly, plan: seq<Creation>, budget: nat, a: Aptly, names: seq<string>,
                      part: seq<Creation>, rest: seq<Creation>, a': Aptly, names': seq<string>)
    requires |names| <= budget && Progress(before, plan, budget, a, budget - |names|, names, true)
    requires plan[|names|..] == part + rest && |names'| == |part| <= budget - |names|
    requires Progress(a, part, budget - |names|, a', budget - |names| - |names'|, names', true)
    ensures Progress(before, plan, budget, a', budget - |names| - |names'|, names + names', true)
    ensures |names + names'| <= |plan| && plan[|names + names'|..] == rest
  {
    NamesDeeper(plan, |names|, part, rest, |names'|);
    RanThrough(before, plan, budget, a, |names|, part, rest, a');
  }

  lemma DeeperOut(before: Aptly, plan: seq<Creation>, budget: nat, a: Aptly, names: seq<string>,
                  part: seq<Creation>, rest: seq<Creation>, a': Aptly, names': seq<string>)
    requires |names| <= budget && Progress(before, plan, budget, a, budget - |names|, names, true)
    requires plan[|names|..] == part + rest && |names'| <= budget - |names|
    requires Progress(a, part, budget - |names|, a', budget - |names| - |names'|, names', false)
    ensures Progress(before, plan, budget, a', budget - |names| - |names'|, names + names', false)
  {
    NamesDeeper(plan, |names|, part, rest, |names'|);
    RanOut(before, plan, budget, a, |names|, part, rest, a', |names'|);
  }

  /** The progress of a part of the plan is progress of the plan. */
  lemma Deeper(before: Aptly, plan: seq<Creation>, budget: nat, a: Aptly, left: nat, names: seq<string>,
               part: seq<Creation>, rest: seq<Creation>, a': Aptly, left': nat, names': seq<string>, ok: bool)
    requires Progress(before, plan, budget, a, left, names, true) && plan[|names|..] == part + rest
    requires Progress(a, part, left, a', left', names', ok) && (ok ==> |names'| == |part|)
    ensures Progress(before, plan, budget, a', left', names + names', ok)
    ensures ok ==> plan[|names + names'|..] == rest
  {
    if ok {
      DeeperThrough(before, plan, budget, a, names, part, rest, a', names');
    } else {
      DeeperOut(before, plan, budget, a, names, part, rest, a', names');
    }
  }

  /** The run of the plan is k calls and then what is left of it; or, when it is not ok, just those. */
  ghost predicate Ran(before: Aptly, plan: seq<Creation>, budget: nat, a: Aptly, k: nat, ok: bool)
    requires k <= |plan| && k <= budget
  {
    if ok then Execute(before, plan, budget) == Later(Execute(a, plan[k..], budget - k), k)
    else Execute(before, plan, budget) == (a, k) && k < |plan|
  }

  /** How far a plan has come: `names` made so far with `left` calls to go. */
  ghost predicate Progress(before: Aptly, plan: seq<Creation>, budget: nat, a: Aptly, left: nat,
                           names: seq<string>, ok: bool) {
    && |names| <= |plan| && |names| <= budget && left == budget - |names| && names == Names(plan)[..|names|]
    && Ran(before, plan, budget, a, |names|, ok)
  }

  lemma ProgressEnds(before: Aptly, plan: seq<Creation>, budget: nat, a: Aptly, left: nat, names: seq<string>, ok: bool)
    requires Progress(before, plan, budget, a, left, names, ok) && (ok ==> |names| == |plan|)
    ensures a == Execute(before, plan, budget).0 && ok == Completes(before, plan, budget)
    ensures ok ==> names == Names(plan)
  {
    assert plan[|plan|..] == [];
    assert Names(plan)[..|plan|] == Names(plan);
  }

  /** A run that began k calls ago. */
  function Later(run: (Aptly, nat), k: nat): (Aptly, nat) {
    (run.0, run.1 + k)
  }

  lemma Begun(a: Aptly, plan: seq<Creation>, budget: nat)
    ensures Progress(a, plan, budget, a, budget, [], true)
  {
    assert plan[0..] == plan;
  }

  /** The next call of the plan, as Create makes it. */
  lemma Advance(before: Aptly, plan: seq<Creation>, budget: nat, a: Aptly, left: nat, names: seq<string>, ok: bool)
    requires Progress(before, plan, budget, a, left, names, true) && |names| < |plan|
    requires ok <==> left > 0 && Perform(a, plan[|names|]).Some?
    ensures ok ==>
              Progress(before, plan, budget, Perform(a, plan[|names|]).value, left - 1,
                       names + [plan[|names|].name], true)
    ensures !ok ==> Progress(before, plan, budget, a, left, names, false)
  {
    var rest := plan[|names|..];
    assert rest[0] == plan[|names|] && rest[1..] == plan[|names| + 1..];
    assert Names(plan)[..|names| + 1] == Names(plan)[..|names|] + [plan[|names|].name];
  }

  lemma DropTwice<T>(s: seq<T>, k: nat)
    requires 0 < k <= |s|
    ensures s[k..] == s[1..][k - 1..]
  {
  }

  lemma {:induction false} FilterPlanFrom(order: Order, r: Repository, from: nat, k: nat)
    requires from + k <= |order.filters| && |FilterPlan(order, r, from)| == |order.filters| - from
    ensures FilterPlan(order, r, from)[k..] == FilterPlan(order, r, from + k)
    decreases k
  {
    if k > 0 {
      var plan := FilterPlan(order, r, from);
      var tail := plan[1..];
      assert tail == FilterPlan(order, r, from + 1);
      DropTwice(plan, k);
      FilterPlanFrom(order, r, from + 1, k - 1);
    }
  }

  lemma FilterPlanIs(order: Order, r: Repository, i: nat)
    requires i < |order.filters|
    ensures |RepositoryPlan(order, r)| == |order.filters| + 1
    ensures RepositoryPlan(order, r)[i + 1] ==
              Filtered(NameAfter(RawName(order, r.name), i, |order.filters|),
                       FilteredName(RawName(order, r.name), i, |order.filters|),
                       FilterQuery(order.errata, r.distribution, order.filters[i]))
  {
    FilterPlanAt(order, r, 0, 0);
    FilterPlanFrom(order, r, 0, i);
    assert RepositoryPlan(order, r)[i + 1] == FilterPlan(order, r, 0)[i] == FilterPlan(order, r, 0)[i..][0];
  }

  lemma OneMoreRow(audit: seq<Row>, i: nat, assignment: nat, v: nat)
    requires i < |audit|
    ensures EverLive(audit[..i + 1], assignment, v) <==>
              EverLive(audit[..i], assignment, v) || (audit[i].assignment == assignment && audit[i].version == v)
  {
    assert audit[..i + 1] == audit[..i] + [audit[i]];
    if EverLive(audit[..i], assignment, v) {
      var j :| 0 <= j < i && audit[..i][j].assignment == assignment && audit[..i][j].version == v;
      assert audit[..i + 1][j] == audit[..i][j];
    }
    if audit[i].assignment == assignment && audit[i].version == v {
      assert audit[..i + 1][i] == audit[i];
    }
  }
}
