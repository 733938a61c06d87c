/** When a pair can be assigned: what aptly already publishes, and under which address and distribution. */
module LifecyclePublications {
  import opened Options
  import opened Sorting
  import opened ContentHash
  import opened AptlyServer
  import opened Lifecycle
  import opened LifecycleCatalog
  import opened LifecycleAssignments
  import opened LifecycleRuns
  import opened LifecycleTheorems

  // ----- addresses hold no slash -----------------------------------------------------------------------------

  ghost predicate AddressesOk(published: map<(string, string), seq<Source>>) {
    forall key :: key in published ==> '/' !in key.0
  }

  lemma PointedAddresses(a: Aptly, prefix: string, release: string, sources: seq<Source>)
    requires AddressesOk(a.published)
    ensures AddressesOk(Pointed(a, prefix, release, sources).published)
  {
  }

  lemma AssignAddresses(s: State, p: Pair, version: nat, refused: bool)
    requires AddressesOk(s.aptly.published)
    ensures AddressesOk(DoAssign(s, p, version, refused).aptly.published)
  {
    if Assignable(s, p, version) && !refused && Promoted(s, NewAssignment(s, p, version)).Some? {
      var a := NewAssignment(s, p, version);
      PointedAddresses(s.aptly, a.prefix, a.release, s.versions[version].sources);
    }
  }

  lemma PromoteAddresses(s: State, p: Pair, version: nat, refused: bool)
    requires AddressesOk(s.aptly.published)
    ensures AddressesOk(DoPromote(s, p, version, refused).aptly.published)
  {
    if Promotable(s, p, version) && !refused && Promoted(s, s.assignments[p].(current := version)).Some? {
      var a := s.assignments[p];
      PointedAddresses(s.aptly, a.prefix, a.release, s.versions[version].sources);
    }
  }

  lemma RollbackAddresses(s: State, p: Pair, version: nat, refused: bool)
    requires AddressesOk(s.aptly.published)
    ensures AddressesOk(DoRollback(s, p, version, refused).aptly.published)
  {
    if RollbackAccepts(s, p, version) && !refused && Switched(s, s.assignments[p].(current := version)).Some? {
      var a := s.assignments[p];
      PointedAddresses(s.aptly, a.prefix, a.release, s.versions[version].sources);
    }
  }

  lemma AssignmentStepAddresses(s: State, step: AssignmentStep)
    requires AddressesOk(s.aptly.published)
    ensures AddressesOk(ApplyAssignment(s, step).aptly.published)
  {
    match step
    case Assign(p, version, refused) => AssignAddresses(s, p, version, refused);
    case Promote(p, version, refused) => PromoteAddresses(s, p, version, refused);
    case Rollback(p, version, refused) => RollbackAddresses(s, p, version, refused);
    case Unassign(_) =>
    case PurgeAudit(_) =>
  }

  lemma StepAddresses(s: State, step: Step)
    requires Inv(s) && AddressesOk(s.aptly.published)
    ensures AddressesOk(Apply(s, step).aptly.published)
  {
    match step
    case OfRepository(r) => RepositoryStepMoves(s, r);
    case OfView(v) => ViewStepMoves(s, v);
    case OfVersion(v) => VersionStepMoves(s, v);
    case OfEnvironment(e) => EnvironmentStepMoves(s, e);
    case OfAssignment(a) => AssignmentStepAddresses(s, a);
    case OfServer(x) => ServerStepMoves(s, x);
    case Tick(_) =>
  }

  lemma TakenAddresses(states: seq<State>, steps: seq<Step>, i: nat)
    requires Trace(states, steps) && i < |steps| && Inv(states[i]) && AddressesOk(states[i].aptly.published)
    ensures AddressesOk(states[i + 1].aptly.published)
  {
    assert Taken(states, steps, i);
    StepAddresses(states[i], steps[i]);
  }

  lemma NothingAtFirst(states: seq<State>, steps: seq<Step>)
    requires Trace(states, steps)
    ensures states[0].aptly.published == map[]
  {
  }

  lemma {:induction false} TraceAddresses(states: seq<State>, steps: seq<Step>, i: nat)
    requires Trace(states, steps) && i <= |steps|
    ensures AddressesOk(states[i].aptly.published)
    decreases i
  {
    if i == 0 {
      NothingAtFirst(states, steps);
    } else {
      TraceAddresses(states, steps, i - 1);
      TraceKeeps(states, steps, i - 1);
      TakenAddresses(states, steps, i - 1);
    }
  }

  lemma EveryAddressIsOne(s: State)
    requires Reachable(s)
    ensures AddressesOk(s.aptly.published)
  {
    var states, steps :| Trace(states, steps) && states[|steps|] == s;
    TraceAddresses(states, steps, |steps|);
  }

  // ----- what aptly lists -----------------------------------------------------------------------------------------

  ghost predicate AnythingAt(published: map<(string, string), seq<Source>>, address: string) {
    exists key :: key in published && key.0 == address
  }

  lemma ListedBack(address: string)
    requires '/' !in address
    ensures Address(Listed(address)) == address
  {
    forall i | 0 <= i < |address| ensures Address(Listed(address))[i] == address[i] {
      assert address[i] in address;
    }
  }

  /** A prefix is listed exactly if something is published at its address and it holds no '_'. */
  lemma ListedIff(a: Aptly, prefix: string)
    requires AddressesOk(a.published)
    ensures PublishExists(a, prefix) <==> '_' !in prefix && AnythingAt(a.published, Address(prefix))
  {
    if PublishExists(a, prefix) {
      ListedHasNoUnderscore(a, prefix);
      var key :| key in a.published && Listed(key.0) == prefix;
      ListedBack(key.0);
    }
    if '_' !in prefix && AnythingAt(a.published, Address(prefix)) {
      ListedAsPublished(prefix);
      var key :| key in a.published && key.0 == Address(prefix);
    }
  }

  /** aptly can be pointed at a prefix and a distribution exactly if what it already publishes at that
      address allows: with an '_' in the prefix, that distribution must not be there yet; without, it
      must be there unless nothing is. */
  ghost predicate Accepts(published: map<(string, string), seq<Source>>, prefix: string, release: string) {
    if '_' in prefix then (Address(prefix), release) !in published
    else (Address(prefix), release) in published || !AnythingAt(published, Address(prefix))
  }

  lemma PointAtIff(a: Aptly, prefix: string, release: string, sources: seq<Source>)
    requires AddressesOk(a.published)
    ensures PointAt(a, prefix, release, sources).Some? <==>
              Publishable(a, sources) && Accepts(a.published, prefix, release)
  {
    ListedIff(a, prefix);
    if (Address(prefix), release) in a.published {
      assert AnythingAt(a.published, Address(prefix));
    }
  }

  // ----- assigning --------------------------------------------------------------------------------------------------

  /** An assign that passes the handler's own checks goes through exactly if every snapshot of the
      version is there and what is already published at the prefix allows it. */
  lemma AssignSucceedsIff(s: State, p: Pair, version: nat)
    requires Reachable(s) && Assignable(s, p, version)
    ensures p in DoAssign(s, p, version, false).assignments <==>
              && Publishable(s.aptly, s.versions[version].sources)
              && Accepts(s.aptly.published, PrefixOf(s.environments[p.0], s.views[p.1].name),
                         ReleaseOf(s.repositories, s.views[p.1]))
  {
    EveryAddressIsOne(s);
    AssignGoesThrough(s, p, version);
  }

  lemma AssignGoesThrough(s: State, p: Pair, version: nat)
    requires AddressesOk(s.aptly.published) && Assignable(s, p, version)
    ensures p in DoAssign(s, p, version, false).assignments <==>
              && Publishable(s.aptly, s.versions[version].sources)
              && Accepts(s.aptly.published, PrefixOf(s.environments[p.0], s.views[p.1].name),
                         ReleaseOf(s.repositories, s.views[p.1]))
  {
    var a := NewAssignment(s, p, version);
    PointAtIff(s.aptly, a.prefix, a.release, s.versions[version].sources);
    if Promoted(s, a).Some? {
    }
  }

  /** A pair that is unassigned leaves its publication behind, so it can be assigned again exactly if
      its names hold no '_'. */
  lemma AssignedAgainIff(s: State, p: Pair, version: nat)
    requires Reachable(s) && p in s.assignments && VersionOf(s, version, p.1)
    requires Publishable(s.aptly, s.versions[version].sources)
    ensures p.0 in s.environments && p.1 in s.views && Assignable(DoUnassign(s, p), p, version)
    ensures p in DoAssign(DoUnassign(s, p), p, version, false).assignments <==>
              '_' !in s.environments[p.0] && '_' !in s.views[p.1].name
  {
    EveryRunKeeps(s);
    EveryAddressIsOne(s);
    LeftBehind(s, p, version);
    AssignGoesThrough(DoUnassign(s, p), p, version);
  }

  lemma LeftBehind(s: State, p: Pair, version: nat)
    requires TableOk(s) && CatalogOk(s) && p in s.assignments && VersionOf(s, version, p.1)
    ensures p.0 in s.environments && p.1 in s.views && Assignable(DoUnassign(s, p), p, version)
    ensures Accepts(s.aptly.published, PrefixOf(s.environments[p.0], s.views[p.1].name),
                    ReleaseOf(s.repositories, s.views[p.1])) <==>
              '_' !in s.environments[p.0] && '_' !in s.views[p.1].name
  {
    UnderscoreInPrefix(s.environments[p.0], s.views[p.1].name);
    assert KeyOf(s.assignments[p]) in s.aptly.published;
    var members := s.views[p.1].members;
    assert ViewOk(s.repositories, s.views[p.1]);
    assert |Sorted(members, LexLeq)| == |multiset(Sorted(members, LexLeq))| == |multiset(members)| == |members|;
  }

  /** The audit rows of an assignment are its own: right after an assign, of a pair assigned before or
      not, there is nothing to roll back to but the version it was assigned with. */
  lemma NothingInherited(s: State, p: Pair, version: nat, x: nat)
    requires Reachable(s) && p !in s.assignments && p in DoAssign(s, p, version, false).assignments
    ensures RollbackAccepts(DoAssign(s, p, version, false), p, x) <==> x == version
  {
    EveryRunKeeps(s);
    OwnRowsOnly(s, p, version, x);
  }

  lemma OwnRowsOnly(s: State, p: Pair, version: nat, x: nat)
    requires IdsOk(s) && p !in s.assignments && p in DoAssign(s, p, version, false).assignments
    ensures RollbackAccepts(DoAssign(s, p, version, false), p, x) <==> x == version
  {
    if Assignable(s, p, version) && Promoted(s, NewAssignment(s, p, version)).Some? {
      var audit := DoAssign(s, p, version, false).audit;
      assert audit == s.audit + [Row(s.nextId, version, None, s.now)];
      assert audit[|s.audit|].version == version;
    }
  }
}
