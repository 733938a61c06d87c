/** What an id stands for, it stands for as long as its row is there: ids are never given out again,
    a version changes only in the names still to delete, a view only in its filters. */
module LifecycleIdentity {
  import opened Options
  import opened Sorting
  import opened ContentHash
  import opened AptlyServer
  import opened Cut
  import opened Lifecycle
  import opened LifecycleCatalog
  import opened LifecycleRuns
  import opened LifecyclePublish

  predicate SameVersion(v: Version, w: Version) {
    && w.view == v.view && w.number == v.number && w.sources == v.sources && w.content == v.content
    && w.packageCount == v.packageCount
  }

  predicate SameView(v: View, w: View) {
    w.name == v.name && w.members == v.members
  }

  ghost predicate VersionsLast(s: State, s': State) {
    forall x :: x in s'.versions && x < s.nextId ==> x in s.versions && SameVersion(s.versions[x], s'.versions[x])
  }

  ghost predicate ViewsLast(s: State, s': State) {
    forall v :: v in s'.views && v < s.nextId ==> v in s.views && SameView(s.views[v], s'.views[v])
  }

  /** Whatever row of s is there at s' is the same row, and nothing new took an old id. */
  ghost predicate Lasts(s: State, s': State) {
    s.nextId <= s'.nextId && VersionsLast(s, s') && ViewsLast(s, s')
  }

  lemma UntouchedLasts(s: State, s': State)
    requires s'.versions == s.versions && s'.views == s.views && s.nextId <= s'.nextId
    ensures Lasts(s, s')
  {
  }

  lemma LastsOn(s: State, s': State, s'': State)
    requires Lasts(s, s') && Lasts(s', s'')
    ensures Lasts(s, s'')
  {
  }

  lemma WithFiltersLasts(s: State, view: nat, filters: seq<Filter>)
    requires view in s.views
    ensures Lasts(s, WithFilters(s, view, filters))
  {
  }

  lemma CreateViewLasts(s: State, name: string, members: seq<string>)
    ensures Lasts(s, DoCreateView(s, name, members))
  {
    if Admissible(s, name, members) {
    }
  }

  lemma DeleteViewLasts(s: State, view: nat)
    ensures Lasts(s, DoDeleteView(s, view))
  {
    if Unassigned(s, view) {
    }
  }

  lemma ViewStepLasts(s: State, step: ViewStep)
    ensures Lasts(s, ApplyView(s, step))
  {
    match step
    case CreateView(name, members) => CreateViewLasts(s, name, members);
    case DeleteView(view) => DeleteViewLasts(s, view);
    case AddFilter(view, f) =>
      if view in s.views {
        WithFiltersLasts(s, view, s.views[view].filters + [f]);
      }
    case DropFilter(view, i) =>
      if view in s.views && i < |s.views[view].filters| {
        WithFiltersLasts(s, view, s.views[view].filters[..i] + s.views[view].filters[i + 1..]);
      }
  }

  lemma PublishLasts(s: State, p: Publication)
    ensures Lasts(s, DoPublish(s, p))
  {
    if Cuttable(s, p) {
      if Complete(s, p) {
      }
    }
  }

  lemma DeleteVersionLasts(s: State, version: nat, budget: nat)
    ensures Lasts(s, DoDeleteVersion(s, version, budget))
  {
    if Deletable(s, version) {
    }
  }

  lemma VersionStepLasts(s: State, step: VersionStep)
    ensures Lasts(s, ApplyVersion(s, step))
  {
    match step
    case Publish(p) => PublishLasts(s, p);
    case DeleteVersion(version, budget) => DeleteVersionLasts(s, version, budget);
  }

  lemma RepositoryStepLasts(s: State, step: RepositoryStep)
    requires Inv(s)
    ensures Lasts(s, ApplyRepository(s, step))
  {
    RepositoryStepMoves(s, step);
    UntouchedLasts(s, ApplyRepository(s, step));
  }

  lemma EnvironmentStepLasts(s: State, step: EnvironmentStep)
    requires Inv(s)
    ensures Lasts(s, ApplyEnvironment(s, step))
  {
    EnvironmentStepMoves(s, step);
    UntouchedLasts(s, ApplyEnvironment(s, step));
  }

  lemma AssignmentStepLasts(s: State, step: AssignmentStep)
    requires Inv(s)
    ensures Lasts(s, ApplyAssignment(s, step))
  {
    AssignmentStepMoves(s, step);
    UntouchedLasts(s, ApplyAssignment(s, step));
  }

  lemma ServerStepLasts(s: State, step: ServerStep)
    requires Inv(s)
    ensures Lasts(s, ApplyServer(s, step))
  {
    ServerStepMoves(s, step);
    UntouchedLasts(s, ApplyServer(s, step));
  }

  lemma StepLasts(s: State, step: Step)
    requires Inv(s)
    ensures Lasts(s, Apply(s, step))
  {
    match step
    case OfRepository(r) => RepositoryStepLasts(s, r);
    case OfView(v) => ViewStepLasts(s, v);
    case OfVersion(v) => VersionStepLasts(s, v);
    case OfEnvironment(e) => EnvironmentStepLasts(s, e);
    case OfAssignment(a) => AssignmentStepLasts(s, a);
    case OfServer(x) => ServerStepLasts(s, x);
    case Tick(_) =>
  }

  lemma TakenLasts(states: seq<State>, steps: seq<Step>, i: nat)
    requires Trace(states, steps) && i < |steps| && Inv(states[i])
    ensures Lasts(states[i], states[i + 1])
  {
    assert Taken(states, steps, i);
    StepLasts(states[i], steps[i]);
  }

  /** Over any stretch of any run. */
  lemma {:induction false} RowsLast(states: seq<State>, steps: seq<Step>, i: nat, j: nat)
    requires Trace(states, steps) && i <= j <= |steps|
    ensures Lasts(states[i], states[j])
    decreases j
  {
    if i < j {
      RowsLast(states, steps, i, j - 1);
      TraceKeeps(states, steps, j - 1);
      TakenLasts(states, steps, j - 1);
      LastsOn(states[i], states[j - 1], states[j]);
    }
  }

  // ----- publishing again --------------------------------------------------------------------------------------

  /** What the mirrors of a view's members hold, as the content hash sees it. */
  function Holdings(s: State, view: nat): map<string, multiset<Package>>
    requires view in s.views
  {
    Content(Readings(s.aptly, Members(s.repositories, s.views[view])))
  }

  /** A version once cut is what an unforced publish answers with at any later time, and leaves
      everything as it is, exactly while it is the latest of its view and the mirrors hold what they
      held when it was cut. */
  lemma PublishedOnce(states: seq<State>, steps: seq<Step>, i: nat, p: Publication, j: nat, again: Publication)
    requires Trace(states, steps) && i < j <= |steps|
    requires steps[i] == OfVersion(Publish(p)) && Cuttable(states[i], p) && Complete(states[i], p)
    requires again.view == p.view && !again.force && again.view in states[j].views
    requires Latest(states[j].versions, p.view) == Some(states[i].nextId)
    ensures Unchanged(states[j], again) <==> Holdings(states[j], p.view) == Holdings(states[i], p.view)
    ensures Unchanged(states[j], again) ==> DoPublish(states[j], again) == states[j]
    ensures UpToDate(states[j], again) ==> PublishedVersion(states[j], again) == Some(states[i].nextId)
  {
    ContentLasts(states, steps, i, p, j);
    AnswersWith(states[j], again, states[i].nextId);
  }

  lemma ContentLasts(states: seq<State>, steps: seq<Step>, i: nat, p: Publication, j: nat)
    requires Trace(states, steps) && i < j <= |steps|
    requires steps[i] == OfVersion(Publish(p)) && Cuttable(states[i], p) && Complete(states[i], p)
    requires Latest(states[j].versions, p.view) == Some(states[i].nextId)
    ensures var x := states[i].nextId;
            x in states[j].versions && states[j].versions[x].content == Holdings(states[i], p.view)
  {
    CutAtStep(states, steps, i, p);
    RowsLast(states, steps, i + 1, j);
    LatestLasts(states[i + 1], states[j], p.view, states[i].nextId);
  }

  lemma LatestLasts(s: State, s': State, view: nat, x: nat)
    requires Lasts(s, s') && x < s.nextId && Latest(s'.versions, view) == Some(x)
    ensures x in s.versions && x in s'.versions && s'.versions[x].content == s.versions[x].content
  {
    LatestIs(s'.versions, view);
  }

  lemma AnswersWith(s: State, again: Publication, x: nat)
    requires again.view in s.views && !again.force && x in s.versions && Latest(s.versions, again.view) == Some(x)
    ensures Unchanged(s, again) <==> Holdings(s, again.view) == s.versions[x].content
    ensures Unchanged(s, again) ==> DoPublish(s, again) == s
    ensures UpToDate(s, again) ==> PublishedVersion(s, again) == Some(x)
  {
    LatestDecides(s, again, x);
  }

  lemma CutAtStep(states: seq<State>, steps: seq<Step>, i: nat, p: Publication)
    requires Trace(states, steps) && i < |steps|
    requires steps[i] == OfVersion(Publish(p)) && Cuttable(states[i], p) && Complete(states[i], p)
    ensures var x, s' := states[i].nextId, states[i + 1];
            x < s'.nextId && x in s'.versions && s'.versions[x].content == Holdings(states[i], p.view)
  {
    assert Taken(states, steps, i);
    CutHolds(states[i], p);
  }

  lemma CutHolds(s: State, p: Publication)
    requires Cuttable(s, p) && Complete(s, p)
    ensures var s' := DoPublish(s, p);
            s.nextId < s'.nextId && s.nextId in s'.versions && s'.versions[s.nextId].content == Holdings(s, p.view)
  {
  }

  lemma {:induction false} SameReadingsSameContent(before: seq<Reading>, now: seq<Reading>)
    requires |before| == |now|
    requires forall i :: 0 <= i < |now| ==>
               now[i].repository == before[i].repository && multiset(now[i].packages) == multiset(before[i].packages)
    ensures Content(before) == Content(now)
  {
    if now != [] {
      SameReadingsSameContent(before[1..], now[1..]);
    }
  }

  predicate SameMirror(a: Aptly, b: Aptly, name: string) {
    (name in a.mirrors <==> name in b.mirrors)
    && (name in a.mirrors ==> multiset(a.mirrors[name]) == multiset(b.mirrors[name]))
  }

  /** They do as long as every member's mirror holds the same packages, in whatever order: a view's
      members are the same for good. */
  lemma SameMirrorsSameHoldings(states: seq<State>, steps: seq<Step>, i: nat, j: nat, view: nat)
    requires Trace(states, steps) && i <= j <= |steps| && view in states[i].views && view in states[j].views
    requires forall n :: n in states[i].views[view].members ==> SameMirror(states[i].aptly, states[j].aptly, n)
    ensures Holdings(states[j], view) == Holdings(states[i], view)
  {
    TraceKeeps(states, steps, i);
    TraceKeeps(states, steps, j);
    RowsLast(states, steps, i, j);
    HoldingsByName(states[i], states[j], view);
  }

  lemma HoldingsByName(s: State, s': State, view: nat)
    requires RepositoriesOk(s.repositories) && RepositoriesOk(s'.repositories)
    requires view in s.views && view in s'.views && s'.views[view].members == s.views[view].members
    requires forall n :: n in s.views[view].members ==> SameMirror(s.aptly, s'.aptly, n)
    ensures Holdings(s', view) == Holdings(s, view)
  {
    var names := Sorted(s.views[view].members, LexLeq);
    var before := Readings(s.aptly, Members(s.repositories, s.views[view]));
    var now := Readings(s'.aptly, Members(s'.repositories, s'.views[view]));
    forall k | 0 <= k < |names|
      ensures now[k].repository == before[k].repository && multiset(now[k].packages) == multiset(before[k].packages)
    {
      SortedNames(s.views[view].members, names[k]);
    }
    SameReadingsSameContent(before, now);
  }

  // ----- syncing --------------------------------------------------------------------------------------------------

  lemma {:induction false} ContentOf(readings: seq<Reading>, i: nat)
    requires i < |readings|
    requires forall j, k :: 0 <= j < k < |readings| ==> readings[j].repository != readings[k].repository
    ensures readings[i].repository in Content(readings)
    ensures Content(readings)[readings[i].repository] == multiset(readings[i].packages)
  {
    if i > 0 {
      ContentOf(readings[1..], i - 1);
    }
  }

  /** A sync changes what the content hash of a view sees exactly if the mirror is one of its members'
      and the packages fetched are not the multiset that was there. */
  lemma SyncNoticedIff(s: State, name: string, packages: seq<Package>, view: nat)
    requires Reachable(s) && name in s.aptly.mirrors && view in s.views
    ensures Holdings(DoSyncMirror(s, name, packages), view) != Holdings(s, view) <==>
              name in s.views[view].members && multiset(packages) != multiset(s.aptly.mirrors[name])
  {
    EveryRunKeeps(s);
    SyncNoticed(s, DoSyncMirror(s, name, packages), name, packages, view);
  }

  lemma SyncNoticed(s: State, s': State, name: string, packages: seq<Package>, view: nat)
    requires RepositoriesOk(s.repositories) && ViewsOk(s.repositories, s.views) && view in s.views
    requires name in s.aptly.mirrors && s'.repositories == s.repositories && s'.views == s.views
    requires s'.aptly.mirrors == s.aptly.mirrors[name := packages]
    ensures Holdings(s', view) != Holdings(s, view) <==>
              name in s.views[view].members && multiset(packages) != multiset(s.aptly.mirrors[name])
  {
    if name in s.views[view].members && multiset(packages) != multiset(s.aptly.mirrors[name]) {
      var v := s.views[view];
      var i := MemberOf(s.repositories, v, name);
      MembersNamed(s.repositories, v);
      ContentOf(Readings(s.aptly, Members(s.repositories, v)), i);
      ContentOf(Readings(s'.aptly, Members(s.repositories, v)), i);
    } else {
      HoldingsByName(s, s', view);
    }
  }
}
