/** Which snapshots belong to which version, in every reachable state: names are never shared, and a
    deletion that fails half-way leaves on the row exactly the names still to delete. */
module LifecycleSnapshots {
  import opened Sorting
  import opened ContentHash
  import opened AptlyServer
  import opened Cut
  import opened CutProofs
  import opened Lifecycle

  /** `cut` is what the version was cut with: its first names are deleted, the others, in their
      order, are on the row and in aptly, and its sources were among them. */
  ghost predicate CutOk(v: Version, cut: seq<string>, snapshots: set<string>, used: set<string>) {
    && 0 < |v.names| <= |cut| && v.names == cut[|cut| - |v.names|..]
    && Distinct(cut) && (forall i :: 0 <= i < |cut| ==> cut[i] in used)
    && (forall i :: 0 <= i < |cut| ==> (cut[i] in snapshots <==> i >= |cut| - |v.names|))
    && (forall n :: n in Snapshots(v.sources) ==> n in cut)
  }

  ghost predicate Unshared(versions: map<nat, Version>, cuts: map<nat, seq<string>>) {
    forall x, y, n :: x in versions && y in versions && x in cuts && y in cuts && n in cuts[x] && n in cuts[y] ==>
      x == y
  }

  ghost predicate CutsOk(versions: map<nat, Version>, cuts: map<nat, seq<string>>, snapshots: set<string>,
                         used: set<string>) {
    && snapshots <= used
    && (forall x :: x in versions ==> x in cuts && CutOk(versions[x], cuts[x], snapshots, used))
    && Unshared(versions, cuts)
  }

  // ----- cutting ------------------------------------------------------------------------------------------

  lemma MadeNames(plan: seq<Creation>, n: nat)
    requires n <= |plan|
    ensures forall i :: 0 <= i < n ==> Names(plan)[i] in Made(plan, n)
    ensures forall name :: name in Made(plan, n) ==> name in Names(plan)
  {
    forall i | 0 <= i < n ensures Names(plan)[i] in Made(plan, n) {
      assert Names(plan)[i] == plan[i].name;
    }
    forall name | name in Made(plan, n) ensures name in Names(plan) {
      var i :| 0 <= i < n && plan[i].name == name;
      assert Names(plan)[i] == name;
    }
  }

  lemma {:induction false} FinalNamesPlanned(order: Order, repositories: seq<Repository>, j: nat)
    requires j < |repositories|
    ensures FinalName(order, repositories[j].name) in Names(Plan(order, repositories))
  {
    var plan, first := Plan(order, repositories), RepositoryPlan(order, repositories[0]);
    RepositoryPlanNames(order, repositories[0]);
    if j == 0 {
      assert Names(plan)[|order.filters|] == first[|order.filters|].name;
    } else {
      FinalNamesPlanned(order, repositories[1..], j - 1);
      var rest := Names(Plan(order, repositories[1..]));
      var i :| 0 <= i < |rest| && rest[i] == FinalName(order, repositories[j].name);
      assert Names(plan)[|first| + i] == rest[i];
    }
  }

  lemma SourcesPlanned(order: Order, repositories: seq<Repository>)
    ensures forall n :: n in Snapshots(Sources(order, repositories)) ==> n in Names(Plan(order, repositories))
  {
    forall n | n in Snapshots(Sources(order, repositories)) ensures n in Names(Plan(order, repositories)) {
      SourceSnapshots(order, repositories, n);
      var j :| 0 <= j < |repositories| && n == FinalName(order, repositories[j].name);
      FinalNamesPlanned(order, repositories, j);
    }
  }

  /** Snapshots made under fresh names disturb no version. */
  lemma AddedKeepsCuts(versions: map<nat, Version>, cuts: map<nat, seq<string>>, a: Aptly, b: Aptly,
                       plan: seq<Creation>, n: nat)
    requires CutsOk(versions, cuts, a.snapshots.Keys, a.used) && n <= |plan| && Added(a, b, plan, n)
    ensures CutsOk(versions, cuts, b.snapshots.Keys, b.used)
  {
    forall x | x in versions ensures CutOk(versions[x], cuts[x], b.snapshots.Keys, b.used) {
      forall i | 0 <= i < |cuts[x]|
        ensures cuts[x][i] in b.snapshots <==> i >= |cuts[x]| - |versions[x].names|
      {
        assert cuts[x][i] in a.used;
      }
    }
  }

  lemma FreshCut(a: Aptly, b: Aptly, plan: seq<Creation>, v: Version)
    requires plan != [] && Added(a, b, plan, |plan|) && v.names == Names(plan)
    requires forall n :: n in Snapshots(v.sources) ==> n in Names(plan)
    ensures CutOk(v, Names(plan), b.snapshots.Keys, b.used)
    ensures forall n :: n in Names(plan) ==> n !in a.used
  {
    var cut := Names(plan);
    MadeNames(plan, |plan|);
    assert cut[|cut| - |v.names|..] == v.names;
    forall n | n in cut ensures n !in a.used {
      var i :| 0 <= i < |cut| && cut[i] == n;
      assert n in Made(plan, |plan|);
    }
  }

  /** A new version under names that were never used before. */
  lemma FreshVersionKeepsCuts(versions: map<nat, Version>, cuts: map<nat, seq<string>>, snapshots: set<string>,
                              used: set<string>,
                              before: set<string>, id: nat, v: Version, cut: seq<string>)
    requires CutsOk(versions, cuts, snapshots, used) && id !in versions && CutOk(v, cut, snapshots, used)
    requires forall x, n :: x in versions && n in cuts[x] ==> n in before
    requires forall n :: n in cut ==> n !in before
    ensures CutsOk(versions[id := v], cuts[id := cut], snapshots, used)
  {
  }

  lemma PlanNotEmpty(order: Order, repositories: seq<Repository>)
    requires repositories != []
    ensures Plan(order, repositories) != []
  {
    RepositoryPlanNames(order, repositories[0]);
  }

  lemma NamedAsPlanned(s: State, p: Publication)
    requires p.view in s.views && s.views[p.view].members != []
    ensures PlanOf(s, p) != [] && forall n :: n in Snapshots(SourcesOf(s, p)) ==> n in Names(PlanOf(s, p))
  {
    var members := Members(s.repositories, s.views[p.view]);
    assert |members| == |multiset(Sorting.Sorted(s.views[p.view].members, LexLeq))|
                     == |multiset(s.views[p.view].members)|;
    PlanNotEmpty(OrderOf(s, p), members);
    SourcesPlanned(OrderOf(s, p), members);
  }

  ghost predicate CutsOkIn(s: State) {
    CutsOk(s.versions, s.cuts, s.aptly.snapshots.Keys, s.aptly.used)
  }

  lemma PublishKeepsCuts(s: State, p: Publication)
    requires CutsOkIn(s) && s.nextId !in s.versions && forall v :: v in s.views ==> s.views[v].members != []
    ensures CutsOkIn(DoPublish(s, p))
    ensures Extends(s.aptly, DoPublish(s, p).aptly)
  {
    if Cuttable(s, p) {
      var plan := PlanOf(s, p);
      var (b, made) := Execute(s.aptly, plan, p.budget);
      ExecuteAdds(s.aptly, plan, p.budget);
      AddedKeepsCuts(s.versions, s.cuts, s.aptly, b, plan, made);
      if Complete(s, p) {
        NamedAsPlanned(s, p);
        FreshCut(s.aptly, b, plan, VersionCut(s, p));
        FreshVersionKeepsCuts(s.versions, s.cuts, b.snapshots.Keys, b.used, s.aptly.used, s.nextId, VersionCut(s, p),
                              Names(plan));
      }
    }
  }

  // ----- deleting ----------------------------------------------------------------------------------------------

  /** The first k names. */
  function Front(names: seq<string>, k: nat): set<string>
    requires k <= |names|
  {
    set i | 0 <= i < k :: names[i]
  }

  lemma FrontGrows(names: seq<string>, k: nat)
    requires k < |names|
    ensures Front(names, k + 1) == {names[0]} + Front(names[1..], k)
  {
    forall i | 0 < i < k + 1 ensures names[i] in Front(names[1..], k) {
      assert names[1..][i - 1] == names[i];
    }
    forall i | 0 <= i < k ensures names[1..][i] in Front(names, k + 1) {
      assert names[i + 1] == names[1..][i];
    }
  }

  /** The deletes take names from the front, each of them out of aptly, and touch nothing else. */
  lemma {:induction false} DeletesInOrder(a: Aptly, names: seq<string>, budget: nat)
    ensures var (b, remaining) := DeleteAll(a, names, budget);
            && |remaining| <= |names| && remaining == names[|names| - |remaining|..]
            && b.snapshots.Keys == a.snapshots.Keys - Front(names, |names| - |remaining|)
            && (forall n :: n in b.snapshots ==> b.snapshots[n] == a.snapshots[n])
            && b.used == a.used && b.mirrors == a.mirrors && b.published == a.published && b.matcher == a.matcher
    decreases |names|
  {
    if names != [] && budget > 0 && DeleteSnapshot(a, names[0]).Some? {
      var c := DeleteSnapshot(a, names[0]).value;
      DeletesInOrder(c, names[1..], budget - 1);
      FrontGrows(names, |names| - |DeleteAll(c, names[1..], budget - 1).1| - 1);
    }
  }

  lemma FrontInCut(cut: seq<string>, names: seq<string>, k: nat)
    requires k <= |names| <= |cut| && names == cut[|cut| - |names|..] && Distinct(cut)
    ensures forall i :: 0 <= i < |cut| ==> (cut[i] in Front(names, k) <==> |cut| - |names| <= i < |cut| - |names| + k)
    ensures forall n :: n in Front(names, k) ==> n in cut
  {
    var start := |cut| - |names|;
    forall i | 0 <= i < |cut| ensures cut[i] in Front(names, k) <==> start <= i < start + k {
      if start <= i < start + k {
        assert names[i - start] == cut[i];
      }
      if cut[i] in Front(names, k) {
        var j :| 0 <= j < k && names[j] == cut[i];
        assert cut[start + j] == cut[i];
      }
    }
  }

  lemma EndOfEnd(cut: seq<string>, m: nat, r: nat)
    requires r <= m <= |cut|
    ensures cut[|cut| - m..][m - r..] == cut[|cut| - r..]
  {
  }

  lemma FrontGone(v: Version, cut: seq<string>, before: set<string>, after: set<string>, used: set<string>,
                  remaining: seq<string>)
    requires CutOk(v, cut, before, used) && |remaining| <= |v.names| && remaining == v.names[|v.names| - |remaining|..]
    requires after == before - Front(v.names, |v.names| - |remaining|)
    ensures remaining != [] ==> CutOk(v.(names := remaining), cut, after, used)
    ensures remaining == [] ==> forall n :: n in cut ==> n !in after
    ensures forall n :: n !in cut ==> (n in after <==> n in before)
  {
    FrontInCut(cut, v.names, |v.names| - |remaining|);
    EndOfEnd(cut, |v.names|, |remaining|);
    assert forall i :: 0 <= i < |cut| ==> (cut[i] in after <==> i >= |cut| - |remaining|);
  }

  /** The version that is being deleted: its row goes when every name has gone. */
  lemma DeletedCut(v: Version, cut: seq<string>, a: Aptly, budget: nat)
    requires CutOk(v, cut, a.snapshots.Keys, a.used)
    ensures var (b, remaining) := DeleteAll(a, v.names, budget);
            && (remaining != [] ==> CutOk(v.(names := remaining), cut, b.snapshots.Keys, b.used))
            && (remaining == [] ==> forall n :: n in cut ==> n !in b.snapshots)
            && (forall n :: n !in cut ==> (n in b.snapshots <==> n in a.snapshots))
  {
    DeletesInOrder(a, v.names, budget);
    var (b, remaining) := DeleteAll(a, v.names, budget);
    FrontGone(v, cut, a.snapshots.Keys, b.snapshots.Keys, a.used, remaining);
  }

  lemma OtherCut(v: Version, cut: seq<string>, other: seq<string>, before: set<string>, after: set<string>,
                 used: set<string>)
    requires CutOk(v, cut, before, used) && (forall n :: n in cut ==> n !in other)
    requires forall n :: n !in other ==> (n in after <==> n in before)
    ensures CutOk(v, cut, after, used)
  {
  }

  lemma OtherCuts(versions: map<nat, Version>, cuts: map<nat, seq<string>>, before: set<string>, after: set<string>,
                  used: set<string>, version: nat)
    requires CutsOk(versions, cuts, before, used) && version in versions && after <= before
    requires forall n :: n !in cuts[version] ==> (n in after <==> n in before)
    ensures CutsOk(versions - {version}, cuts, after, used)
  {
    forall x | x in versions && x != version ensures CutOk(versions[x], cuts[x], after, used) {
      OtherCut(versions[x], cuts[x], cuts[version], before, after, used);
    }
  }

  lemma OneBack(versions: map<nat, Version>, cuts: map<nat, seq<string>>, snapshots: set<string>, used: set<string>,
                x: nat, v: Version)
    requires CutsOk(versions - {x}, cuts, snapshots, used) && Unshared(versions, cuts)
    requires x in versions && x in cuts && CutOk(v, cuts[x], snapshots, used)
    ensures CutsOk(versions[x := v], cuts, snapshots, used)
  {
    var versions' := versions[x := v];
    forall y | y in versions' ensures y in cuts && CutOk(versions'[y], cuts[y], snapshots, used) {
      if y != x {
        assert versions'[y] == (versions - {x})[y];
      }
    }
  }

  lemma DeleteVersionKeepsCuts(s: State, version: nat, budget: nat)
    requires CutsOkIn(s)
    ensures CutsOkIn(DoDeleteVersion(s, version, budget))
  {
    if Deletable(s, version) {
      var v := s.versions[version];
      var (b, remaining) := DeleteAll(s.aptly, v.names, budget);
      DeletesInOrder(s.aptly, v.names, budget);
      DeletedCut(v, s.cuts[version], s.aptly, budget);
      OtherCuts(s.versions, s.cuts, s.aptly.snapshots.Keys, b.snapshots.Keys, b.used, version);
      if remaining != [] {
        OneBack(s.versions, s.cuts, b.snapshots.Keys, b.used, version, v.(names := remaining));
      }
    }
  }

  /** Deleting one version takes no snapshot of another. */
  lemma DeleteSparesOthers(s: State, version: nat, budget: nat, x: nat)
    requires CutsOkIn(s)
    requires x in s.versions && x != version && Snapshots(s.versions[x].sources) <= s.aptly.snapshots.Keys
    ensures Snapshots(s.versions[x].sources) <= DoDeleteVersion(s, version, budget).aptly.snapshots.Keys
  {
    if Deletable(s, version) {
      DeletedCut(s.versions[version], s.cuts[version], s.aptly, budget);
    }
  }
}
