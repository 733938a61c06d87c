/** Assignments, their publications and what a rollback may return to, in every reachable state. */
module LifecycleAssignments {
  import opened Options
  import opened Scan
  import opened ContentHash
  import opened AptlyServer
  import opened Cut
  import opened Lifecycle
  import opened LifecycleCatalog
  import opened LifecycleSnapshots

  // ----- prefixes and addresses ----------------------------------------------------------------------------

  predicate NotSlash(c: char) {
    c != '/'
  }

  /** A prefix names one environment and one content view: their names hold no slash. */
  lemma PrefixInjective(environment: string, view: string, environment': string, view': string)
    requires ValidName(environment) && ValidName(environment')
    requires PrefixOf(environment, view) == PrefixOf(environment', view')
    ensures environment == environment' && view == view'
  {
    assert All(NotSlash, environment) && All(NotSlash, environment');
    SpanOf(NotSlash, environment, "/" + view);
    SpanOf(NotSlash, environment', "/" + view');
    assert ("/" + view)[1..] == view && ("/" + view')[1..] == view';
  }

  lemma OneSlash(environment: string, view: string, i: nat)
    requires ValidName(environment) && ValidName(view) && i < |PrefixOf(environment, view)|
    ensures PrefixOf(environment, view)[i] == '/' <==> i == |environment|
  {
    var prefix := PrefixOf(environment, view);
    assert i < |environment| ==> prefix[i] == environment[i];
    assert i == |environment| ==> prefix[i] == '/';
    assert i > |environment| ==> prefix[i] == view[i - |environment| - 1];
  }

  /** What aptly lists for a prefix without '_' was published under that prefix and no other. */
  lemma AddressInjective(prefix: string, environment: string, view: string)
    requires ValidName(environment) && ValidName(view)
    requires '_' !in prefix && Address(prefix) == Address(PrefixOf(environment, view))
    requires exists i :: 0 <= i < |prefix| && prefix[i] == '/'
                         && forall j :: 0 <= j < |prefix| && prefix[j] == '/' ==> j == i
    ensures prefix == PrefixOf(environment, view)
  {
    var other := PrefixOf(environment, view);
    var k := |environment|;
    assert |prefix| == |Address(prefix)| == |other|;
    OneSlash(environment, view, k);
    assert Address(other)[k] == '_' == Address(prefix)[k];
    forall i | 0 <= i < |prefix| ensures prefix[i] == other[i] {
      OneSlash(environment, view, i);
      assert Address(prefix)[i] == Address(other)[i];
    }
  }

  /** A prefix that aptly lists holds no '_'. */
  lemma ListedHasNoUnderscore(a: Aptly, prefix: string)
    requires PublishExists(a, prefix)
    ensures '_' !in prefix
  {
    var key :| key in a.published && Listed(key.0) == prefix;
  }

  /** aptly lists a publication under the prefix it was addressed by, exactly if that has no '_'. */
  lemma ListedAsPublished(prefix: string)
    ensures Listed(Address(prefix)) == prefix <==> '_' !in prefix
  {
    var listed := Listed(Address(prefix));
    if '_' in prefix {
      var i :| 0 <= i < |prefix| && prefix[i] == '_';
      assert Address(prefix)[i] == '_' && listed[i] == '/';
    } else {
      forall i | 0 <= i < |prefix| ensures listed[i] == prefix[i] {
        assert prefix[i] in prefix;
      }
    }
  }

  // ----- what holds of the table ----------------------------------------------------------------------------

  ghost predicate KeysOk(repositories: map<string, Repository>, views: map<nat, View>, environments: map<nat, string>,
                         assignments: map<Pair, Assignment>) {
    forall p: Pair :: p in assignments ==>
      && p.0 in environments && p.1 in views
      && assignments[p].release == ReleaseOf(repositories, views[p.1])
      && assignments[p].prefix == PrefixOf(environments[p.0], views[p.1].name)
  }

  /** The version is there, and so is every snapshot it publishes. */
  ghost predicate Usable(versions: map<nat, Version>, view: nat, x: nat, snapshots: set<string>) {
    x in versions && versions[x].view == view && Snapshots(versions[x].sources) <= snapshots
  }

  function KeyOf(a: Assignment): (string, string) {
    (Address(a.prefix), a.release)
  }

  ghost predicate LiveOk(versions: map<nat, Version>, assignments: map<Pair, Assignment>, snapshots: set<string>,
                         published: map<(string, string), seq<Source>>) {
    forall p: Pair :: p in assignments ==>
      && Usable(versions, p.1, assignments[p].current, snapshots)
      && KeyOf(assignments[p]) in published
      && published[KeyOf(assignments[p])] == versions[assignments[p].current].sources
  }

  ghost predicate Apart(a: Assignment, b: Assignment) {
    a.id != b.id && KeyOf(a) != KeyOf(b)
  }

  ghost predicate ApartOk(assignments: map<Pair, Assignment>) {
    forall p, q :: p in assignments && q in assignments && p != q ==> Apart(assignments[p], assignments[q])
  }

  ghost predicate RowsOk(versions: map<nat, Version>, assignments: map<Pair, Assignment>, audit: seq<Row>,
                         snapshots: set<string>) {
    forall p: Pair, i ::
      p in assignments && 0 <= i < |audit| && audit[i].assignment == assignments[p].id ==>
        Usable(versions, p.1, audit[i].version, snapshots)
  }

  ghost predicate TableOk(s: State) {
    && KeysOk(s.repositories, s.views, s.environments, s.assignments)
    && LiveOk(s.versions, s.assignments, s.aptly.snapshots.Keys, s.aptly.published)
    && ApartOk(s.assignments)
    && RowsOk(s.versions, s.assignments, s.audit, s.aptly.snapshots.Keys)
  }

  // ----- promoting and rolling back ------------------------------------------------------------------------------

  /** After aptly pointed p's publication at the version, p is live at it and no other pair noticed. */
  lemma CommittedKeepsLive(s: State, p: Pair, a: Assignment, from: Option<nat>)
    requires LiveOk(s.versions, s.assignments, s.aptly.snapshots.Keys, s.aptly.published)
    requires Usable(s.versions, p.1, a.current, s.aptly.snapshots.Keys)
    requires forall q :: q in s.assignments && q != p ==> KeyOf(s.assignments[q]) != KeyOf(a)
    ensures var s' := Committed(s, p, a, from, Pointed(s.aptly, a.prefix, a.release, s.versions[a.current].sources));
            LiveOk(s'.versions, s'.assignments, s'.aptly.snapshots.Keys, s'.aptly.published)
  {
  }

  lemma CommittedKeepsRows(s: State, p: Pair, a: Assignment, from: Option<nat>, aptly: Aptly)
    requires RowsOk(s.versions, s.assignments, s.audit, s.aptly.snapshots.Keys) && aptly.snapshots == s.aptly.snapshots
    requires Usable(s.versions, p.1, a.current, s.aptly.snapshots.Keys)
    requires forall q :: q in s.assignments && q != p ==> s.assignments[q].id != a.id
    requires p in s.assignments ==> s.assignments[p].id == a.id
    requires p !in s.assignments ==> forall i :: 0 <= i < |s.audit| ==> s.audit[i].assignment != a.id
    ensures var s' := Committed(s, p, a, from, aptly);
            RowsOk(s'.versions, s'.assignments, s'.audit, s'.aptly.snapshots.Keys)
  {
    var s' := Committed(s, p, a, from, aptly);
    forall q: Pair, i | q in s'.assignments && 0 <= i < |s'.audit| && s'.audit[i].assignment == s'.assignments[q].id
      ensures Usable(s'.versions, q.1, s'.audit[i].version, s'.aptly.snapshots.Keys)
    {
      if i < |s.audit| {
        assert s'.audit[i] == s.audit[i];
      }
    }
  }

  lemma PublishableIsUsable(s: State, view: nat, version: nat)
    requires VersionOf(s, version, view) && Publishable(s.aptly, s.versions[version].sources)
    ensures Usable(s.versions, view, version, s.aptly.snapshots.Keys)
  {
  }

  lemma OneMoreKey(repositories: map<string, Repository>, views: map<nat, View>, environments: map<nat, string>,
                   assignments: map<Pair, Assignment>, p: Pair, a: Assignment)
    requires KeysOk(repositories, views, environments, assignments) && ApartOk(assignments)
    requires p.0 in environments && p.1 in views && a.release == ReleaseOf(repositories, views[p.1])
    requires a.prefix == PrefixOf(environments[p.0], views[p.1].name)
    requires forall q :: q in assignments && q != p ==> Apart(assignments[q], a)
    ensures KeysOk(repositories, views, environments, assignments[p := a]) && ApartOk(assignments[p := a])
  {
    var assignments' := assignments[p := a];
    forall q, r | q in assignments' && r in assignments' && q != r ensures Apart(assignments'[q], assignments'[r]) {
      if q == p {
        assert Apart(assignments[r], a);
      } else if r == p {
        assert Apart(assignments[q], a);
      } else {
        assert Apart(assignments[q], assignments[r]);
      }
    }
  }

  /** A commit on a pair that stands apart from every other keeps the table. */
  lemma CommittedKeepsTable(s: State, p: Pair, a: Assignment, from: Option<nat>)
    requires TableOk(s) && VersionOf(s, a.current, p.1) && Publishable(s.aptly, s.versions[a.current].sources)
    requires p.0 in s.environments && p.1 in s.views && a.release == ReleaseOf(s.repositories, s.views[p.1])
    requires a.prefix == PrefixOf(s.environments[p.0], s.views[p.1].name)
    requires forall q :: q in s.assignments && q != p ==> Apart(s.assignments[q], a)
    requires p in s.assignments ==> s.assignments[p].id == a.id
    requires p !in s.assignments ==> forall i :: 0 <= i < |s.audit| ==> s.audit[i].assignment != a.id
    ensures TableOk(Committed(s, p, a, from, Pointed(s.aptly, a.prefix, a.release, s.versions[a.current].sources)))
  {
    PublishableIsUsable(s, p.1, a.current);
    OneMoreKey(s.repositories, s.views, s.environments, s.assignments, p, a);
    CommittedKeepsLive(s, p, a, from);
    CommittedKeepsRows(s, p, a, from, Pointed(s.aptly, a.prefix, a.release, s.versions[a.current].sources));
  }

  lemma PointAtPoints(a: Aptly, prefix: string, release: string, sources: seq<Source>)
    ensures var r := PointAt(a, prefix, release, sources);
            r.Some? ==> r.value == Pointed(a, prefix, release, sources) && Publishable(a, sources)
    ensures PointAt(a, prefix, release, sources).Some? ==>
              (PublishExists(a, prefix) <==> (Address(prefix), release) in a.published)
  {
  }

  /** A pair's first publication stands at an address of its own: where aptly already lists its
      prefix, no other pair's prefix can have the same address, and elsewhere the address is new. */
  lemma FirstPublicationApart(s: State, p: Pair, q: Pair, release: string, sources: seq<Source>)
    requires CatalogOk(s) && TableOk(s)
    requires p.0 in s.environments && p.1 in s.views && q in s.assignments && q != p
    requires PointAt(s.aptly, PrefixOf(s.environments[p.0], s.views[p.1].name), release, sources).Some?
    ensures KeyOf(s.assignments[q]) != (Address(PrefixOf(s.environments[p.0], s.views[p.1].name)), release)
  {
    var environment, view := s.environments[p.0], s.views[p.1].name;
    var prefix := PrefixOf(environment, view);
    PointAtPoints(s.aptly, prefix, release, sources);
    if KeyOf(s.assignments[q]) == (Address(prefix), release) {
      ListedHasNoUnderscore(s.aptly, prefix);
      OneSlash(environment, view, |environment|);
      forall j | 0 <= j < |prefix| && prefix[j] == '/' ensures j == |environment| {
        OneSlash(environment, view, j);
      }
      AddressInjective(prefix, s.environments[q.0], s.views[q.1].name);
      PrefixInjective(environment, view, s.environments[q.0], s.views[q.1].name);
    }
  }

  lemma AssignKeepsTable(s: State, p: Pair, version: nat, refused: bool)
    requires CatalogOk(s) && TableOk(s) && IdsOk(s)
    ensures TableOk(DoAssign(s, p, version, refused))
  {
    if Assignable(s, p, version) && Promoted(s, NewAssignment(s, p, version)).Some? {
      var a := NewAssignment(s, p, version);
      PointAtPoints(s.aptly, a.prefix, a.release, s.versions[version].sources);
      forall q | q in s.assignments && q != p ensures Apart(s.assignments[q], a) {
        FirstPublicationApart(s, p, q, a.release, s.versions[version].sources);
      }
      CommittedKeepsTable(s, p, a, None);
    }
  }

  lemma PromoteKeepsTable(s: State, p: Pair, version: nat, refused: bool)
    requires TableOk(s)
    ensures TableOk(DoPromote(s, p, version, refused))
  {
    if Promotable(s, p, version) && Promoted(s, s.assignments[p].(current := version)).Some? {
      var a := s.assignments[p];
      PointAtPoints(s.aptly, a.prefix, a.release, s.versions[version].sources);
      CommittedKeepsTable(s, p, a.(current := version), Some(a.current));
    }
  }

  lemma RollbackKeepsTable(s: State, p: Pair, version: nat, refused: bool)
    requires TableOk(s)
    ensures TableOk(DoRollback(s, p, version, refused))
  {
    if RollbackAccepts(s, p, version) && Switched(s, s.assignments[p].(current := version)).Some? {
      var a := s.assignments[p];
      CommittedKeepsTable(s, p, a.(current := version), Some(a.current));
    }
  }

  // ----- everything else ------------------------------------------------------------------------------------------

  /** What the pair may still use at s, it may use unchanged at s'. */
  ghost predicate Spared(s: State, s': State, p: Pair, x: nat)
    requires p in s.assignments
  {
    InUseBy(s, p, x) && Usable(s.versions, p.1, x, s.aptly.snapshots.Keys) ==>
      Usable(s'.versions, p.1, x, s'.aptly.snapshots.Keys) && s'.versions[x].sources == s.versions[x].sources
  }

  lemma LiveLater(s: State, s': State)
    requires LiveOk(s.versions, s.assignments, s.aptly.snapshots.Keys, s.aptly.published)
    requires s'.assignments == s.assignments && s'.aptly.published == s.aptly.published
    requires forall p: Pair, x :: p in s.assignments ==> Spared(s, s', p, x)
    ensures LiveOk(s'.versions, s'.assignments, s'.aptly.snapshots.Keys, s'.aptly.published)
  {
    forall p: Pair | p in s.assignments ensures Spared(s, s', p, s.assignments[p].current) {
    }
  }

  lemma RowsLater(s: State, s': State)
    requires RowsOk(s.versions, s.assignments, s.audit, s.aptly.snapshots.Keys)
    requires s'.assignments == s.assignments && s'.audit == s.audit
    requires forall p: Pair, x :: p in s.assignments ==> Spared(s, s', p, x)
    ensures RowsOk(s'.versions, s'.assignments, s'.audit, s'.aptly.snapshots.Keys)
  {
    forall p: Pair, i | p in s.assignments && 0 <= i < |s.audit| && s.audit[i].assignment == s.assignments[p].id
      ensures Usable(s'.versions, p.1, s.audit[i].version, s'.aptly.snapshots.Keys)
    {
      assert Spared(s, s', p, s.audit[i].version);
    }
  }

  /** Snapshots may come and go and versions too, as long as those in use are spared. */
  lemma UsableLater(s: State, s': State)
    requires TableOk(s) && s'.assignments == s.assignments && s'.audit == s.audit
    requires s'.aptly.published == s.aptly.published
    requires KeysOk(s'.repositories, s'.views, s'.environments, s'.assignments)
    requires forall p: Pair, x :: p in s.assignments ==> Spared(s, s', p, x)
    ensures TableOk(s')
  {
    LiveLater(s, s');
    RowsLater(s, s');
  }

  /** Live for the pair, or recorded as once live for it. */
  ghost predicate InUseBy(s: State, p: Pair, x: nat)
    requires p in s.assignments
  {
    x == s.assignments[p].current || EverLive(s.audit, s.assignments[p].id, x)
  }

  lemma InUseIsPromoted(s: State, p: Pair, x: nat)
    requires p in s.assignments && InUseBy(s, p, x)
    ensures EverPromoted(s, x)
  {
  }

  lemma DeleteVersionSpares(s: State, version: nat, budget: nat, p: Pair, x: nat)
    requires CutsOkIn(s) && p in s.assignments
    ensures Spared(s, DoDeleteVersion(s, version, budget), p, x)
  {
    if InUseBy(s, p, x) && Usable(s.versions, p.1, x, s.aptly.snapshots.Keys) {
      InUseIsPromoted(s, p, x);
      if x != version {
        DeleteSparesOthers(s, version, budget, x);
      }
    }
  }

  lemma DeleteVersionKeepsTable(s: State, version: nat, budget: nat)
    requires TableOk(s) && CutsOkIn(s)
    ensures TableOk(DoDeleteVersion(s, version, budget))
  {
    if Deletable(s, version) {
      DeletesInOrder(s.aptly, s.versions[version].names, budget);
      forall p: Pair, x | p in s.assignments ensures Spared(s, DoDeleteVersion(s, version, budget), p, x) {
        DeleteVersionSpares(s, version, budget, p, x);
      }
      UsableLater(s, DoDeleteVersion(s, version, budget));
    }
  }

  lemma DeleteViewSpares(s: State, view: nat, p: Pair, x: nat)
    requires p in s.assignments && !ViewAssigned(s.assignments, view)
    ensures Spared(s, DoDeleteView(s, view), p, x) && p.1 != view
  {
  }

  lemma DeleteViewKeepsTable(s: State, view: nat)
    requires TableOk(s)
    ensures TableOk(DoDeleteView(s, view))
  {
    if Unassigned(s, view) {
      forall p: Pair, x | p in s.assignments ensures Spared(s, DoDeleteView(s, view), p, x) && p.1 != view {
        DeleteViewSpares(s, view, p, x);
      }
      UsableLater(s, DoDeleteView(s, view));
    }
  }

  lemma UnassignKeepsTable(s: State, p: Pair)
    requires TableOk(s)
    ensures TableOk(DoUnassign(s, p))
  {
  }

  lemma {:induction false} SinceIsPart(audit: seq<Row>, threshold: int)
    ensures forall i :: 0 <= i < |Since(audit, threshold)| ==> Since(audit, threshold)[i] in audit
  {
    if audit != [] {
      SinceIsPart(audit[1..], threshold);
    }
  }

  lemma FewerRows(versions: map<nat, Version>, assignments: map<Pair, Assignment>, audit: seq<Row>, kept: seq<Row>,
                  snapshots: set<string>)
    requires RowsOk(versions, assignments, audit, snapshots)
    requires forall i :: 0 <= i < |kept| ==> kept[i] in audit
    ensures RowsOk(versions, assignments, kept, snapshots)
  {
    forall p: Pair, i | p in assignments && 0 <= i < |kept| && kept[i].assignment == assignments[p].id
      ensures Usable(versions, p.1, kept[i].version, snapshots)
    {
      var j :| 0 <= j < |audit| && audit[j] == kept[i];
    }
  }

  lemma PurgeKeepsTable(s: State, retention: nat)
    requires TableOk(s)
    ensures TableOk(DoPurgeAudit(s, retention))
  {
    SinceIsPart(s.audit, s.now - retention);
    FewerRows(s.versions, s.assignments, s.audit, Since(s.audit, s.now - retention), s.aptly.snapshots.Keys);
  }
}
