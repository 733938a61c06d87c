/** What holds of repositories, content views, environments and their versions in every reachable
    state: a referenced repository stays frozen, so a view's components never collide, its release
    never goes stale, and every version has one snapshot per component. */
module LifecycleCatalog {
  import opened Sorting
  import opened ContentHash
  import opened AptlyServer
  import opened Cut
  import opened CutProofs
  import opened Lifecycle

  // ----- the catalogue -------------------------------------------------------------------------------------

  ghost predicate RepositoriesOk(repositories: map<string, Repository>) {
    forall n :: n in repositories ==> repositories[n].name == n && ValidName(n)
  }

  ghost predicate ViewOk(repositories: map<string, Repository>, v: View) {
    && ValidName(v.name) && v.members != [] && Distinct(v.members)
    && (forall i :: 0 <= i < |v.members| ==> v.members[i] in repositories)
    && NoCollision(Lookup(repositories, v.members))
  }

  ghost predicate ViewsOk(repositories: map<string, Repository>, views: map<nat, View>) {
    && (forall v :: v in views ==> ViewOk(repositories, views[v]))
    && (forall v, w :: v in views && w in views && views[v].name == views[w].name ==> v == w)
  }

  ghost predicate EnvironmentsOk(environments: map<nat, string>) {
    && (forall e :: e in environments ==> ValidName(environments[e]))
    && (forall e, f :: e in environments && f in environments && environments[e] == environments[f] ==> e == f)
  }

  ghost predicate CatalogOk(s: State) {
    RepositoriesOk(s.repositories) && ViewsOk(s.repositories, s.views) && EnvironmentsOk(s.environments)
  }

  ghost predicate IdsOk(s: State) {
    && (forall v :: v in s.views ==> v < s.nextId)
    && (forall x :: x in s.versions ==> x < s.nextId)
    && (forall e :: e in s.environments ==> e < s.nextId)
    && (forall p :: p in s.assignments ==> s.assignments[p].id < s.nextId)
    && (forall x :: x in s.servers ==> x < s.nextId)
    && (forall i :: 0 <= i < |s.history| ==> s.history[i].assignment < s.nextId)
    && (forall i :: 0 <= i < |s.audit| ==> s.audit[i].assignment < s.nextId)
  }

  /** Only the repositories that the view names matter to it. */
  lemma FrozenLookup(repositories: map<string, Repository>, repositories': map<string, Repository>, names: seq<string>)
    requires forall i :: 0 <= i < |names| ==>
               (names[i] in repositories <==> names[i] in repositories')
               && (names[i] in repositories ==> repositories[names[i]] == repositories'[names[i]])
    ensures Lookup(repositories, names) == Lookup(repositories', names)
  {
  }

  lemma SortedNames(names: seq<string>, x: string)
    ensures x in Sorted(names, LexLeq) <==> x in names
  {
    assert x in Sorted(names, LexLeq) <==> x in multiset(Sorted(names, LexLeq));
    assert x in names <==> x in multiset(names);
  }

  lemma FrozenMembers(repositories: map<string, Repository>, repositories': map<string, Repository>, v: View)
    requires forall n :: n in v.members ==>
               (n in repositories <==> n in repositories')
               && (n in repositories ==> repositories[n] == repositories'[n])
    ensures Members(repositories, v) == Members(repositories', v)
    ensures Lookup(repositories, v.members) == Lookup(repositories', v.members)
    ensures ReleaseOf(repositories, v) == ReleaseOf(repositories', v)
  {
    var sorted := Sorted(v.members, LexLeq);
    forall i | 0 <= i < |sorted| ensures sorted[i] in v.members {
      SortedNames(v.members, sorted[i]);
    }
    FrozenLookup(repositories, repositories', sorted);
    FrozenLookup(repositories, repositories', v.members);
  }

  /** What an update, a creation or a deletion of repository `name` leaves alone. */
  ghost predicate OthersSame(repositories: map<string, Repository>, repositories': map<string, Repository>,
                             name: string) {
    forall n :: n != name ==>
      (n in repositories <==> n in repositories') && (n in repositories ==> repositories[n] == repositories'[n])
  }

  lemma UnreferencedMayChange(repositories: map<string, Repository>, repositories': map<string, Repository>,
                              views: map<nat, View>, name: string)
    requires ViewsOk(repositories, views) && OthersSame(repositories, repositories', name)
    requires !Referenced(views, name) || name !in repositories
    ensures ViewsOk(repositories', views)
    ensures forall v :: v in views ==> ReleaseOf(repositories, views[v]) == ReleaseOf(repositories', views[v])
  {
    forall v | v in views
      ensures ViewOk(repositories', views[v]) && ReleaseOf(repositories, views[v]) == ReleaseOf(repositories', views[v])
    {
      assert name !in views[v].members;
      FrozenMembers(repositories, repositories', views[v]);
    }
  }

  // ----- component by component -----------------------------------------------------------------------------

  ghost predicate OneSourcePerComponent(sources: seq<Source>) {
    forall i, j :: 0 <= i < j < |sources| ==> sources[i].component != sources[j].component
  }

  lemma {:induction false} ComponentAt(repositories: seq<Repository>, x: nat) returns (a: nat, i: nat)
    requires x < |Components(repositories)|
    ensures a < |repositories| && i < |repositories[a].components|
    ensures Components(repositories)[x] == repositories[a].components[i]
    ensures x == |Components(repositories[..a])| + i
  {
    var first := repositories[0].components;
    if x < |first| {
      a, i := 0, x;
      assert repositories[..0] == [];
    } else {
      a, i := ComponentAt(repositories[1..], x - |first|);
      a := a + 1;
      assert repositories[..a][1..] == repositories[1..][..a - 1];
    }
  }

  lemma NoCollisionNoRepeat(repositories: seq<Repository>)
    requires NoCollision(repositories)
    ensures Distinct(Components(repositories))
  {
    var all := Components(repositories);
    forall x, y | 0 <= x < y < |all| ensures all[x] != all[y] {
      var a, i := ComponentAt(repositories, x);
      var b, j := ComponentAt(repositories, y);
      assert all[x] == repositories[a].components[i] && all[y] == repositories[b].components[j];
    }
  }

  lemma SortedDistinct(names: seq<string>)
    requires Distinct(names)
    ensures Distinct(Sorted(names, LexLeq))
  {
    var sorted := Sorted(names, LexLeq);
    forall i, j | 0 <= i < j < |sorted| ensures sorted[i] != sorted[j] {
      DistinctCounts(names, sorted[i]);
      if sorted[i] == sorted[j] {
        TwiceCounts(sorted, i, j);
      }
    }
  }

  /** Members by name collide no more than members in any other order. */
  lemma SortedNoCollision(repositories: map<string, Repository>, names: seq<string>)
    requires Distinct(names) && NoCollision(Lookup(repositories, names))
    ensures NoCollision(Lookup(repositories, Sorted(names, LexLeq)))
  {
    var sorted := Sorted(names, LexLeq);
    var members := Lookup(repositories, sorted);
    SortedDistinct(names);
    forall a, b, i, j | 0 <= a < |members| && 0 <= b < |members| && 0 <= i < |members[a].components|
                        && 0 <= j < |members[b].components| && members[a].components[i] == members[b].components[j]
      ensures a == b && i == j
    {
      SortedNames(names, sorted[a]);
      SortedNames(names, sorted[b]);
      var a' :| 0 <= a' < |names| && names[a'] == sorted[a];
      var b' :| 0 <= b' < |names| && names[b'] == sorted[b];
      var all := Lookup(repositories, names);
      assert all[a'] == members[a] && all[b'] == members[b];
      assert a' == b' && i == j;
    }
  }

  lemma ViewSources(repositories: map<string, Repository>, v: View, order: Order)
    requires ViewOk(repositories, v)
    ensures OneSourcePerComponent(Sources(order, Members(repositories, v)))
  {
    SortedNoCollision(repositories, v.members);
    NoCollisionNoRepeat(Members(repositories, v));
    SourcePerComponent(order, Members(repositories, v));
  }

  // ----- versions ------------------------------------------------------------------------------------------

  ghost predicate VersionsOk(views: map<nat, View>, versions: map<nat, Version>) {
    && (forall x :: x in versions ==> versions[x].view in views && OneSourcePerComponent(versions[x].sources))
    && (forall x, y ::
          x in versions && y in versions && versions[x].view == versions[y].view
          && versions[x].number == versions[y].number ==>
            x == y)
  }

  /** With distinct numbers a view that has versions has a latest one. */
  lemma {:induction false} SomeLatest(versions: map<nat, Version>, view: nat, among: set<nat>) returns (x: nat)
    requires among <= versions.Keys && (forall y :: y in among ==> versions[y].view == view) && among != {}
    ensures x in among && forall y :: y in among ==> versions[y].number <= versions[x].number
    decreases |among|
  {
    var y :| y in among;
    if among == {y} {
      x := y;
    } else {
      var z := SomeLatest(versions, view, among - {y});
      x := if versions[y].number > versions[z].number then y else z;
      assert forall w :: w in among ==> w == y || w in among - {y};
    }
  }

  lemma LatestIs(versions: map<nat, Version>, view: nat)
    ensures Latest(versions, view).Some? <==> exists x :: x in versions && versions[x].view == view
    ensures Latest(versions, view).Some? ==> IsLatest(versions, view, Latest(versions, view).value)
  {
    if x :| x in versions && versions[x].view == view {
      assert x in VersionsOf(versions, view);
      var latest := SomeLatest(versions, view, VersionsOf(versions, view));
      assert IsLatest(versions, view, latest);
    }
  }

  /** The next number is above every number the view has. */
  lemma NextNumber(s: State, p: Publication)
    requires p.view in s.views
    ensures forall x :: x in s.versions && s.versions[x].view == p.view ==> s.versions[x].number < OrderOf(s, p).number
  {
    LatestIs(s.versions, p.view);
  }

  lemma PublishKeepsVersions(s: State, p: Publication)
    requires ViewsOk(s.repositories, s.views) && VersionsOk(s.views, s.versions) && s.nextId !in s.versions
    ensures var s' := DoPublish(s, p); VersionsOk(s'.views, s'.versions)
  {
    if Cuttable(s, p) {
      NextNumber(s, p);
      ViewSources(s.repositories, s.views[p.view], OrderOf(s, p));
    }
  }
}
