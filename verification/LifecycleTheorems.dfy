/** What every run of the content lifecycle guarantees. */
module LifecycleTheorems {
  import opened Options
  import opened AptlyServer
  import opened Cut
  import opened Lifecycle
  import opened LifecycleCatalog
  import opened LifecycleSnapshots
  import opened LifecycleAssignments
  import opened LifecycleAudit
  import opened LifecycleRuns

  // ----- rollback ------------------------------------------------------------------------------------------

  lemma RowsUsable(s: State, p: Pair, version: nat)
    requires RowsOk(s.versions, s.assignments, s.audit, s.aptly.snapshots.Keys)
    requires p in s.assignments && EverLive(s.audit, s.assignments[p].id, version)
    ensures Usable(s.versions, p.1, version, s.aptly.snapshots.Keys)
  {
  }

  lemma UsableIsPublishable(s: State, view: nat, version: nat)
    requires Usable(s.versions, view, version, s.aptly.snapshots.Keys)
    requires OneSourcePerComponent(s.versions[version].sources)
    ensures Publishable(s.aptly, s.versions[version].sources)
  {
    var sources := s.versions[version].sources;
    forall i | 0 <= i < |sources| ensures sources[i].snapshot in s.aptly.snapshots {
      assert sources[i].snapshot in Snapshots(sources);
    }
  }

  /** Whatever the audit log still says was live for a pair can be rolled back to: the version is
      there, all its snapshots are in aptly, and the switch aptly is asked for is one it can make. */
  lemma RollbackTargetsSurvive(s: State, p: Pair, version: nat)
    requires Reachable(s) && p in s.assignments && EverLive(s.audit, s.assignments[p].id, version)
    ensures RollbackAccepts(s, p, version) && Usable(s.versions, p.1, version, s.aptly.snapshots.Keys)
    ensures Switched(s, s.assignments[p].(current := version)).Some?
  {
    EveryRunKeeps(s);
    RollbackTargetSurvives(s, p, version);
  }

  lemma RollbackTargetSurvives(s: State, p: Pair, version: nat)
    requires TableOk(s) && VersionsOk(s.views, s.versions)
    requires p in s.assignments && EverLive(s.audit, s.assignments[p].id, version)
    ensures RollbackAccepts(s, p, version) && Usable(s.versions, p.1, version, s.aptly.snapshots.Keys)
    ensures Switched(s, s.assignments[p].(current := version)).Some?
  {
    RowsUsable(s, p, version);
    UsableIsPublishable(s, p.1, version);
  }

  // ----- aptly agrees with the table ------------------------------------------------------------------------------

  /** aptly publishes, for every assigned pair and nothing else at that address, exactly the snapshots
      of its current version, and all of them exist. */
  lemma AptlyAgrees(s: State, p: Pair)
    requires Reachable(s) && p in s.assignments
    ensures var a := s.assignments[p];
            && Usable(s.versions, p.1, a.current, s.aptly.snapshots.Keys)
            && KeyOf(a) in s.aptly.published && s.aptly.published[KeyOf(a)] == s.versions[a.current].sources
            && forall q :: q in s.assignments && q != p ==> KeyOf(s.assignments[q]) != KeyOf(a)
  {
    EveryRunKeeps(s);
    TableSays(s, p);
  }

  lemma TableSays(s: State, p: Pair)
    requires LiveOk(s.versions, s.assignments, s.aptly.snapshots.Keys, s.aptly.published) && ApartOk(s.assignments)
    requires p in s.assignments
    ensures var a := s.assignments[p];
            && Usable(s.versions, p.1, a.current, s.aptly.snapshots.Keys)
            && KeyOf(a) in s.aptly.published && s.aptly.published[KeyOf(a)] == s.versions[a.current].sources
            && forall q :: q in s.assignments && q != p ==> KeyOf(s.assignments[q]) != KeyOf(a)
  {
    forall q | q in s.assignments && q != p ensures KeyOf(s.assignments[q]) != KeyOf(s.assignments[p]) {
      assert Apart(s.assignments[q], s.assignments[p]);
    }
  }

  /** A pair can be promoted again exactly if its names hold no '_': aptly lists the prefix with '/'
      for every '_', so the control plane asks it to publish afresh what is already published. */
  lemma PromotedAgainIff(s: State, p: Pair, version: nat)
    requires Reachable(s) && Promotable(s, p, version) && Publishable(s.aptly, s.versions[version].sources)
    ensures p.0 in s.environments && p.1 in s.views
    ensures Promoted(s, s.assignments[p].(current := version)).Some? <==>
              '_' !in s.environments[p.0] && '_' !in s.views[p.1].name
  {
    EveryRunKeeps(s);
    PromotedAgain(s, p, version);
  }

  lemma PromotedAgain(s: State, p: Pair, version: nat)
    requires TableOk(s) && Promotable(s, p, version) && Publishable(s.aptly, s.versions[version].sources)
    ensures p.0 in s.environments && p.1 in s.views
    ensures Promoted(s, s.assignments[p].(current := version)).Some? <==>
              '_' !in s.environments[p.0] && '_' !in s.views[p.1].name
  {
    var a := s.assignments[p];
    UnderscoreInPrefix(s.environments[p.0], s.views[p.1].name);
    ListedAsPublished(a.prefix);
    assert KeyOf(a) in s.aptly.published;
    if PublishExists(s.aptly, a.prefix) {
      ListedHasNoUnderscore(s.aptly, a.prefix);
    }
  }

  lemma UnderscoreInPrefix(environment: string, view: string)
    ensures '_' in PrefixOf(environment, view) <==> '_' in environment || '_' in view
  {
    var prefix := PrefixOf(environment, view);
    if '_' in environment {
      var i :| 0 <= i < |environment| && environment[i] == '_';
      assert prefix[i] == '_';
    }
    if '_' in view {
      var i :| 0 <= i < |view| && view[i] == '_';
      assert prefix[|environment| + 1 + i] == '_';
    }
  }

  // ----- the audit trail -------------------------------------------------------------------------------------------

  /** Every row starts where the one before it ended, the last row of every assigned pair names its
      current version, and what purges have left is the end of what was ever written. */
  lemma AuditReplays(s: State)
    requires Reachable(s)
    ensures Chained(s.history) && IsEnd(s.audit, s.history)
    ensures forall p :: p in s.assignments ==> Replay(s.history, s.assignments[p].id) == Some(s.assignments[p].current)
  {
    EveryRunKeeps(s);
  }

  // ----- the catalogue -------------------------------------------------------------------------------------------

  /** Each content view's members declare no component twice, so a version has one snapshot for each
      component; and the release an assignment was given is the one it would be given now. */
  lemma NothingGoesStale(s: State)
    requires Reachable(s)
    ensures forall v :: v in s.views ==> NoCollision(Lookup(s.repositories, s.views[v].members))
    ensures forall x :: x in s.versions ==> OneSourcePerComponent(s.versions[x].sources)
    ensures forall p: Pair :: p in s.assignments ==>
              p.1 in s.views && s.assignments[p].release == ReleaseOf(s.repositories, s.views[p.1])
  {
    EveryRunKeeps(s);
    CatalogSays(s);
  }

  lemma CatalogSays(s: State)
    requires ViewsOk(s.repositories, s.views) && VersionsOk(s.views, s.versions)
    requires KeysOk(s.repositories, s.views, s.environments, s.assignments)
    ensures forall v :: v in s.views ==> NoCollision(Lookup(s.repositories, s.views[v].members))
    ensures forall x :: x in s.versions ==> OneSourcePerComponent(s.versions[x].sources)
    ensures forall p: Pair :: p in s.assignments ==>
              p.1 in s.views && s.assignments[p].release == ReleaseOf(s.repositories, s.views[p.1])
  {
    forall v | v in s.views ensures NoCollision(Lookup(s.repositories, s.views[v].members)) {
      assert ViewOk(s.repositories, s.views[v]);
    }
  }

  // ----- versions ----------------------------------------------------------------------------------------------------

  /** No two versions of a content view have one number, even after the latest was deleted. */
  lemma NumbersAreDistinct(s: State, x: nat, y: nat)
    requires Reachable(s) && x in s.versions && y in s.versions && x != y && s.versions[x].view == s.versions[y].view
    ensures s.versions[x].number != s.versions[y].number
  {
    EveryRunKeeps(s);
  }

  /** However often its deletion has failed, a version's row lists exactly the names it was cut with
      that are still in aptly, in their order; what was deleted is not listed again. */
  lemma NamesAreConserved(s: State, x: nat)
    requires Reachable(s) && x in s.versions
    ensures x in s.cuts && 0 < |s.versions[x].names| <= |s.cuts[x]|
    ensures var gone := |s.cuts[x]| - |s.versions[x].names|;
            && s.versions[x].names == s.cuts[x][gone..]
            && forall i :: 0 <= i < |s.cuts[x]| ==> (s.cuts[x][i] in s.aptly.snapshots <==> i >= gone)
  {
    EveryRunKeeps(s);
    CutSays(s, x);
  }

  lemma CutSays(s: State, x: nat)
    requires CutsOkIn(s) && x in s.versions
    ensures x in s.cuts && CutOk(s.versions[x], s.cuts[x], s.aptly.snapshots.Keys, s.aptly.used)
  {
  }

  /** A deletion takes the row away only when every name the version was cut with is gone. */
  lemma RowGoesLast(s: State, x: nat, budget: nat)
    requires Reachable(s) && x in s.versions && x !in DoDeleteVersion(s, x, budget).versions
    ensures x in s.cuts && forall n :: n in s.cuts[x] ==> n !in DoDeleteVersion(s, x, budget).aptly.snapshots
  {
    EveryRunKeeps(s);
    RowGoes(s, x, budget);
  }

  lemma RowGoes(s: State, x: nat, budget: nat)
    requires CutsOkIn(s) && x in s.versions && x !in DoDeleteVersion(s, x, budget).versions
    ensures x in s.cuts && forall n :: n in s.cuts[x] ==> n !in DoDeleteVersion(s, x, budget).aptly.snapshots
  {
    CutSays(s, x);
    if Deletable(s, x) {
      DeletedCut(s.versions[x], s.cuts[x], s.aptly, budget);
    }
  }
}
