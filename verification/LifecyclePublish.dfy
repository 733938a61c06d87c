/** What one publish leaves behind, whenever in a run it comes. */
module LifecyclePublish {
  import opened Options
  import opened Sorting
  import opened ContentHash
  import opened AptlyServer
  import opened Cut
  import opened CutProofs
  import opened Lifecycle
  import opened LifecycleCatalog
  import opened LifecycleSnapshots
  import opened LifecycleRuns

  // ----- members ---------------------------------------------------------------------------------------------

  lemma MembersNamed(repositories: map<string, Repository>, v: View)
    requires RepositoriesOk(repositories) && ViewOk(repositories, v)
    ensures var members := Members(repositories, v);
            && DistinctNames(members)
            && forall i :: 0 <= i < |members| ==> ValidName(members[i].name) && members[i].name in v.members
  {
    var sorted := Sorted(v.members, LexLeq);
    SortedDistinct(v.members);
    forall i | 0 <= i < |sorted| ensures sorted[i] in v.members && sorted[i] in repositories && ValidName(sorted[i]) {
      SortedNames(v.members, sorted[i]);
    }
  }

  /** Every member is read and cut, once, in the order of the names. */
  lemma EveryMemberIsCut(s: State, view: nat)
    requires Reachable(s) && view in s.views
    ensures var members := Members(s.repositories, s.views[view]);
            && |members| == |s.views[view].members|
            && (forall n :: n in s.views[view].members <==> exists i :: 0 <= i < |members| && members[i].name == n)
            && (forall i, j :: 0 <= i < j < |members| ==> LexLeq(members[i].name, members[j].name))
            && forall i :: 0 <= i < |members| ==>
                             members[i].name in s.repositories && members[i] == s.repositories[members[i].name]
  {
    EveryRunKeeps(s);
    assert ViewOk(s.repositories, s.views[view]);
    MembersByName(s.repositories, s.views[view]);
  }

  lemma MemberAt(repositories: map<string, Repository>, v: View, i: nat)
    requires RepositoriesOk(repositories) && ViewOk(repositories, v) && i < |Sorted(v.members, LexLeq)|
    ensures var n := Sorted(v.members, LexLeq)[i];
            n in v.members && n in repositories && Members(repositories, v)[i] == repositories[n]
            && Members(repositories, v)[i].name == n
  {
    SortedNames(v.members, Sorted(v.members, LexLeq)[i]);
  }

  lemma MemberOf(repositories: map<string, Repository>, v: View, n: string) returns (i: nat)
    requires RepositoriesOk(repositories) && ViewOk(repositories, v) && n in v.members
    ensures i < |Members(repositories, v)| && Members(repositories, v)[i].name == n
  {
    SortedNames(v.members, n);
    var sorted := Sorted(v.members, LexLeq);
    i :| 0 <= i < |sorted| && sorted[i] == n;
    MemberAt(repositories, v, i);
  }

  lemma MembersByName(repositories: map<string, Repository>, v: View)
    requires RepositoriesOk(repositories) && ViewOk(repositories, v)
    ensures var members := Members(repositories, v);
            && |members| == |v.members|
            && (forall n :: n in v.members <==> exists i :: 0 <= i < |members| && members[i].name == n)
            && (forall i, j :: 0 <= i < j < |members| ==> LexLeq(members[i].name, members[j].name))
            && forall i :: 0 <= i < |members| ==>
                             members[i].name in repositories && members[i] == repositories[members[i].name]
  {
    var sorted, members := Sorted(v.members, LexLeq), Members(repositories, v);
    assert |sorted| == |multiset(sorted)| == |multiset(v.members)|;
    LexIsTotalOrder();
    SortedAscends(v.members, LexLeq);
    forall i | 0 <= i < |members|
      ensures members[i].name == sorted[i] && sorted[i] in v.members && sorted[i] in repositories
      ensures members[i] == repositories[members[i].name]
    {
      MemberAt(repositories, v, i);
    }
    forall n | n in v.members ensures exists i :: 0 <= i < |members| && members[i].name == n {
      var i := MemberOf(repositories, v, n);
    }
  }

  predicate AllFree(a: Aptly) {
    forall n :: n in a.mirrors ==> AllSeparatorFree(a.mirrors[n])
  }

  lemma ReadingsWellFormed(a: Aptly, repositories: map<string, Repository>, v: View)
    requires RepositoriesOk(repositories) && ViewOk(repositories, v) && AllFree(a)
    ensures WellFormed(Readings(a, Members(repositories, v)))
  {
    MembersNamed(repositories, v);
  }

  // ----- nothing to cut ----------------------------------------------------------------------------------------

  /** Comparing contents, as the model does, is comparing hashes, as the code does. */
  lemma HashDecides(h: string -> string, s: State, view: nat, before: seq<Reading>)
    requires Digest(h) && WellFormed(before) && RepositoriesOk(s.repositories) && ViewsOk(s.repositories, s.views)
    requires view in s.views && AllFree(s.aptly)
    ensures var now := Readings(s.aptly, Members(s.repositories, s.views[view]));
            HashContent(h, before) == HashContent(h, now) <==> Content(before) == Content(now)
  {
    ReadingsWellFormed(s.aptly, s.repositories, s.views[view]);
    HashIsCanonical(h, before, Readings(s.aptly, Members(s.repositories, s.views[view])));
  }

  /** A view has one latest version at most. */
  lemma TheLatest(versions: map<nat, Version>, views: map<nat, View>, view: nat, x: nat)
    requires VersionsOk(views, versions) && IsLatest(versions, view, x)
    ensures Latest(versions, view) == Some(x)
  {
    LatestIs(versions, view);
  }

  lemma CutIsLatest(s: State, p: Publication)
    requires ViewsOk(s.repositories, s.views) && VersionsOk(s.views, s.versions) && s.nextId !in s.versions
    requires Cuttable(s, p) && Complete(s, p)
    ensures Latest(DoPublish(s, p).versions, p.view) == Some(s.nextId)
    ensures DoPublish(s, p).versions[s.nextId] == VersionCut(s, p)
  {
    NextNumber(s, p);
    PublishKeepsVersions(s, p);
    var s' := DoPublish(s, p);
    assert IsLatest(s'.versions, p.view, s.nextId);
    TheLatest(s'.versions, s.views, p.view, s.nextId);
  }

  lemma SameMirrorsSameReadings(a: Aptly, b: Aptly, members: seq<Repository>)
    requires a.mirrors == b.mirrors
    ensures Readings(a, members) == Readings(b, members)
  {
  }

  /** An unforced publish right after a cut finds the version just cut: same version, same state. */
  lemma PublishedTwice(s: State, p: Publication, again: Publication)
    requires Reachable(s) && Cuttable(s, p) && Complete(s, p) && again.view == p.view && !again.force
    ensures DoPublish(DoPublish(s, p), again) == DoPublish(s, p)
    ensures Latest(DoPublish(s, p).versions, p.view) == Some(s.nextId)
  {
    EveryRunKeeps(s);
    PublishAgain(s, p, again);
  }

  lemma PublishAgain(s: State, p: Publication, again: Publication)
    requires IdsOk(s) && CatalogOk(s) && VersionsOk(s.views, s.versions) && CutsOkIn(s)
    requires Cuttable(s, p) && Complete(s, p) && again.view == p.view && !again.force
    ensures DoPublish(DoPublish(s, p), again) == DoPublish(s, p)
    ensures Latest(DoPublish(s, p).versions, p.view) == Some(s.nextId)
  {
    CutIsLatest(s, p);
    PublishKeepsCuts(s, p);
    SameMirrorsSameReadings(s.aptly, DoPublish(s, p).aptly, Members(s.repositories, s.views[p.view]));
    LatestDecides(DoPublish(s, p), again, s.nextId);
  }

  /** A publish is a no-op exactly when the latest version already has the mirrors' content and
      nothing forces it. */
  lemma LatestDecides(s: State, p: Publication, x: nat)
    requires p.view in s.views && x in s.versions && Latest(s.versions, p.view) == Some(x)
    ensures Unchanged(s, p) <==>
              !p.force && s.versions[x].content == Content(Readings(s.aptly, Members(s.repositories, s.views[p.view])))
    ensures Unchanged(s, p) ==> DoPublish(s, p) == s
  {
  }

  /** The latest version already has what the mirrors hold, and nothing forces another. */
  ghost predicate UpToDate(s: State, p: Publication) {
    && p.view in s.views && Members(s.repositories, s.views[p.view]) != [] && p.readable
    && Mirrored(s.aptly, Members(s.repositories, s.views[p.view])) && Unchanged(s, p)
  }

  /** The version do_publish answers with. */
  ghost function PublishedVersion(s: State, p: Publication): Option<nat> {
    if UpToDate(s, p) then Latest(s.versions, p.view)
    else if Cuttable(s, p) && Complete(s, p) then Some(s.nextId)
    else None
  }

  /** Whether it was cut or was there before, the version a publish answers with is the latest of its
      view and holds what the mirrors hold, and it may be promoted. */
  lemma PublishedIsCurrent(s: State, p: Publication)
    requires Reachable(s) && PublishedVersion(s, p).Some?
    ensures var s', x := DoPublish(s, p), PublishedVersion(s, p).value;
            && Latest(s'.versions, p.view) == Some(x) && VersionOf(s', x, p.view)
            && s'.versions[x].content == Content(Readings(s'.aptly, Members(s'.repositories, s'.views[p.view])))
  {
    EveryRunKeeps(s);
    PublishedHolds(s, p);
  }

  lemma PublishedHolds(s: State, p: Publication)
    requires IdsOk(s) && CatalogOk(s) && VersionsOk(s.views, s.versions) && CutsOkIn(s)
    requires PublishedVersion(s, p).Some?
    ensures var s', x := DoPublish(s, p), PublishedVersion(s, p).value;
            && Latest(s'.versions, p.view) == Some(x) && VersionOf(s', x, p.view)
            && s'.versions[x].content == Content(Readings(s'.aptly, Members(s'.repositories, s'.views[p.view])))
  {
    if UpToDate(s, p) {
      LatestIs(s.versions, p.view);
    } else {
      CutIsLatest(s, p);
      PublishKeepsCuts(s, p);
      SameMirrorsSameReadings(s.aptly, DoPublish(s, p).aptly, Members(s.repositories, s.views[p.view]));
    }
  }

  // ----- a version cut -------------------------------------------------------------------------------------------

  /** A publish that completes records, for every member, a snapshot of exactly the packages of its
      mirror that pass every filter, one source per component, every name it made and made under a
      name of its own, and the number of packages without counting any snapshot twice. */
  lemma PublishMeansItsFilters(s: State, p: Publication, i: nat)
    requires Reachable(s)
    requires Cuttable(s, p) && Complete(s, p) && Stamp(p.stamp) && MatchesNothing(s.aptly.matcher)
    requires i < |Members(s.repositories, s.views[p.view])|
    requires forall n :: n in s.aptly.mirrors ==> AllNamed(s.aptly.mirrors[n])
    ensures var s', v := DoPublish(s, p), VersionCut(s, p);
            var members := Members(s.repositories, s.views[p.view]);
            && members[i].name in s.aptly.mirrors
            && Meant(s'.aptly, OrderOf(s, p), members[i], s.aptly.mirrors[members[i].name])
            && v.sources == Sources(OrderOf(s, p), members) && OneSourcePerComponent(v.sources)
            && Distinct(v.names)
            && (forall n :: n in v.names <==> n in s'.aptly.snapshots.Keys - s.aptly.snapshots.Keys)
            && Counted(s'.aptly, OrderOf(s, p), members, v.packageCount)
  {
    EveryRunKeeps(s);
    VersionMeansItsFilters(s, p, i);
  }

  ghost predicate Counted(a: Aptly, order: Order, members: seq<Repository>, count: nat) {
    && (forall j :: 0 <= j < |members| ==> FinalName(order, members[j].name) in a.snapshots)
    && count == Total(a, order, members)
  }

  lemma VersionMeansItsFilters(s: State, p: Publication, i: nat)
    requires CatalogOk(s) && CutsOkIn(s)
    requires Cuttable(s, p) && Complete(s, p) && Stamp(p.stamp) && MatchesNothing(s.aptly.matcher)
    requires i < |Members(s.repositories, s.views[p.view])|
    requires forall n :: n in s.aptly.mirrors ==> AllNamed(s.aptly.mirrors[n])
    ensures var s', v := DoPublish(s, p), VersionCut(s, p);
            var members := Members(s.repositories, s.views[p.view]);
            && members[i].name in s.aptly.mirrors
            && Meant(s'.aptly, OrderOf(s, p), members[i], s.aptly.mirrors[members[i].name])
            && v.sources == Sources(OrderOf(s, p), members) && OneSourcePerComponent(v.sources)
            && Distinct(v.names)
            && (forall n :: n in v.names <==> n in s'.aptly.snapshots.Keys - s.aptly.snapshots.Keys)
            && Counted(s'.aptly, OrderOf(s, p), members, v.packageCount)
  {
    var order, members, plan := OrderOf(s, p), Members(s.repositories, s.views[p.view]), PlanOf(s, p);
    CompleteCut(s.aptly, order, members, p.budget, i);
    MembersNamed(s.repositories, s.views[p.view]);
    NamesOfACutAreDistinct(order, members);
    ViewSources(s.repositories, s.views[p.view], order);
    CompletedNames(s.aptly, plan, p.budget);
    CompleteCount(s.aptly, order, members, p.budget);
  }

  lemma CompletedNames(a: Aptly, plan: seq<Creation>, budget: nat)
    requires a.snapshots.Keys <= a.used && Completes(a, plan, budget)
    ensures forall n :: n in Names(plan) <==> n in Execute(a, plan, budget).0.snapshots.Keys - a.snapshots.Keys
  {
    ExecuteAdds(a, plan, budget);
    MadeNames(plan, |plan|);
    forall n | n in Names(plan) ensures n in Made(plan, |plan|) {
      var i :| 0 <= i < |plan| && Names(plan)[i] == n;
    }
  }

  lemma CompleteCut(a: Aptly, order: Order, members: seq<Repository>, budget: nat, i: nat)
    requires a.snapshots.Keys <= a.used && Completes(a, Plan(order, members), budget) && i < |members|
    requires MatchesNothing(a.matcher) && forall n :: n in a.mirrors ==> AllNamed(a.mirrors[n])
    ensures members[i].name in a.mirrors
    ensures Meant(Execute(a, Plan(order, members), budget).0, order, members[i], a.mirrors[members[i].name])
  {
    CutMeansItsFilters(a, order, members, budget, i);
  }

  lemma CompleteCount(a: Aptly, order: Order, members: seq<Repository>, budget: nat)
    requires a.snapshots.Keys <= a.used && Completes(a, Plan(order, members), budget)
    requires Stamp(order.stamp) && DistinctNames(members)
    ensures var b := Execute(a, Plan(order, members), budget).0;
            && Snapshots(Sources(order, members)) <= b.snapshots.Keys
            && Counted(b, order, members, PackageCount(b, Snapshots(Sources(order, members))))
  {
    var b := Execute(a, Plan(order, members), budget).0;
    CompletedNames(a, Plan(order, members), budget);
    forall j | 0 <= j < |members| ensures FinalName(order, members[j].name) in b.snapshots {
      FinalNamesPlanned(order, members, j);
    }
    CountedOnce(b, order, members);
  }

  // ----- when a version is cut --------------------------------------------------------------------------------

  /** The content of the view's latest version is what its mirrors hold. */
  ghost predicate AlreadyCut(s: State, view: nat)
    requires view in s.views
  {
    exists x :: IsLatest(s.versions, view, x)
                && s.versions[x].content == Content(Readings(s.aptly, Members(s.repositories, s.views[view])))
  }

  /** A publish cuts a version exactly if its view is there with every mirror, the mirrors can be read
      and hold something new or the publish is forced, aptly carries out every call, no name was
      used before, and the result can be counted. */
  lemma PublishCutsIff(s: State, p: Publication)
    requires Reachable(s) && Stamp(p.stamp) && p.view in s.views
    ensures var members := Members(s.repositories, s.views[p.view]);
            s.nextId in DoPublish(s, p).versions <==>
              && p.readable && (forall i :: 0 <= i < |members| ==> members[i].name in s.aptly.mirrors)
              && (p.force || !AlreadyCut(s, p.view))
              && |members| * (|s.views[p.view].filters| + 1) <= p.budget
              && (forall n :: n in Names(PlanOf(s, p)) ==> n !in s.aptly.used)
              && p.countable
  {
    EveryRunKeeps(s);
    CutsIff(s, p);
  }

  /** And it answers with a version exactly if it cuts one or finds the mirrors already cut. */
  lemma PublishAnswersIff(s: State, p: Publication)
    requires Reachable(s) && p.view in s.views
    ensures var members := Members(s.repositories, s.views[p.view]);
            PublishedVersion(s, p).Some? <==>
              || s.nextId in DoPublish(s, p).versions
              || (p.readable && (forall i :: 0 <= i < |members| ==> members[i].name in s.aptly.mirrors)
                  && !p.force && AlreadyCut(s, p.view))
  {
    EveryRunKeeps(s);
    AnswersIff(s, p);
  }

  lemma AnswersIff(s: State, p: Publication)
    requires IdsOk(s) && CatalogOk(s) && VersionsOk(s.views, s.versions) && p.view in s.views
    ensures var members := Members(s.repositories, s.views[p.view]);
            PublishedVersion(s, p).Some? <==>
              || s.nextId in DoPublish(s, p).versions
              || (p.readable && (forall i :: 0 <= i < |members| ==> members[i].name in s.aptly.mirrors)
                  && !p.force && AlreadyCut(s, p.view))
  {
    MembersNotEmpty(s.repositories, s.views[p.view]);
    UnchangedIff(s, p);
    LatestIs(s.versions, p.view);
  }

  lemma CutsIff(s: State, p: Publication)
    requires IdsOk(s) && CatalogOk(s) && VersionsOk(s.views, s.versions) && CutsOkIn(s)
    requires Stamp(p.stamp) && p.view in s.views
    ensures var members := Members(s.repositories, s.views[p.view]);
            s.nextId in DoPublish(s, p).versions <==>
              && p.readable && (forall i :: 0 <= i < |members| ==> members[i].name in s.aptly.mirrors)
              && (p.force || !AlreadyCut(s, p.view))
              && |members| * (|s.views[p.view].filters| + 1) <= p.budget
              && (forall n :: n in Names(PlanOf(s, p)) ==> n !in s.aptly.used)
              && p.countable
  {
    var members := Members(s.repositories, s.views[p.view]);
    MembersNamed(s.repositories, s.views[p.view]);
    MembersNotEmpty(s.repositories, s.views[p.view]);
    UnchangedIff(s, p);
    if Mirrored(s.aptly, members) {
      CutCompletesIff(s.aptly, OrderOf(s, p), members, p.budget);
      NamesFresh(s.aptly, PlanOf(s, p));
      if Completes(s.aptly, PlanOf(s, p), p.budget) {
        CompleteCount(s.aptly, OrderOf(s, p), members, p.budget);
      }
    }
  }

  lemma MembersNotEmpty(repositories: map<string, Repository>, v: View)
    requires ViewOk(repositories, v)
    ensures Members(repositories, v) != []
  {
    assert |Sorted(v.members, LexLeq)| == |multiset(Sorted(v.members, LexLeq))| == |multiset(v.members)| == |v.members|;
  }

  lemma UnchangedIff(s: State, p: Publication)
    requires VersionsOk(s.views, s.versions) && p.view in s.views
    ensures Unchanged(s, p) <==> !p.force && AlreadyCut(s, p.view)
  {
    LatestIs(s.versions, p.view);
    if x :| IsLatest(s.versions, p.view, x) {
      TheLatest(s.versions, s.views, p.view, x);
    }
  }

  lemma NamesFresh(a: Aptly, plan: seq<Creation>)
    ensures FreshNames(a, plan) <==> forall n :: n in Names(plan) ==> n !in a.used
  {
    if forall n :: n in Names(plan) ==> n !in a.used {
      forall i | 0 <= i < |plan| ensures plan[i].name !in a.used {
        assert Names(plan)[i] in Names(plan);
      }
    }
  }

  /** The row of a cut: the number after the highest of its view, or the first, under the view's name
      and filters as they are, with the caller's time stamp and the errata of the day. */
  lemma CutRow(s: State, p: Publication)
    requires Reachable(s) && Cuttable(s, p) && Complete(s, p)
    ensures var v, numbers := VersionCut(s, p), NumbersOf(s.versions, p.view);
            && DoPublish(s, p).versions == s.versions[s.nextId := v] && v.view == p.view
            && NextAfter(numbers, v.number)
            && v.content == Content(Readings(s.aptly, Members(s.repositories, s.views[p.view])))
            && OrderOf(s, p) == Order(s.views[p.view].name, v.number, p.stamp, s.views[p.view].filters, p.errata)
  {
    EveryRunKeeps(s);
    NumberFollows(s, p);
  }

  predicate NextAfter(numbers: set<nat>, n: nat) {
    (forall m :: m in numbers ==> m < n) && if numbers == {} then n == 1 else n > 0 && n - 1 in numbers
  }

  lemma NumberFollows(s: State, p: Publication)
    requires p.view in s.views
    ensures NextAfter(NumbersOf(s.versions, p.view), OrderOf(s, p).number)
  {
    LatestIs(s.versions, p.view);
    NextNumber(s, p);
    var numbers := NumbersOf(s.versions, p.view);
    if x :| x in s.versions && s.versions[x].view == p.view {
      assert s.versions[x].number in numbers;
    } else {
      assert numbers == {};
    }
  }

  function NumbersOf(versions: map<nat, Version>, view: nat): set<nat> {
    set x | x in versions && versions[x].view == view :: versions[x].number
  }
}
