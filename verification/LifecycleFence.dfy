/** The config serial: a fence between what a server was told and what it says it applied. */
module LifecycleFence {
  import opened Options
  import opened AptlyServer
  import opened Lifecycle

  /** An answer that carried the server's present serial still describes its environment: nothing has
      been assigned, promoted or rolled back there since. */
  ghost predicate StillTrue(issue: Issue, server: Server, assignments: map<Pair, Assignment>) {
    && issue.environment == server.environment
    && forall p: Pair :: p in assignments && p.0 == server.environment ==>
         p in issue.live && issue.live[p] == assignments[p]
  }

  ghost predicate IssueOk(issue: Issue, servers: map<nat, Server>, assignments: map<Pair, Assignment>) {
    && issue.server in servers && servers[issue.server].beacon.Some?
    && issue.serial <= servers[issue.server].beacon.value.serial
    && (forall p: Pair :: p in issue.live ==> p.0 == issue.environment)
    && (issue.serial == servers[issue.server].beacon.value.serial ==>
          StillTrue(issue, servers[issue.server], assignments))
  }

  ghost predicate FenceOk(issued: seq<Issue>, servers: map<nat, Server>, assignments: map<Pair, Assignment>) {
    forall i :: 0 <= i < |issued| ==> IssueOk(issued[i], servers, assignments)
  }

  predicate WasIssued(issued: seq<Issue>, x: nat, serial: nat) {
    exists i :: 0 <= i < |issued| && issued[i].server == x && issued[i].serial == serial
  }

  /** A server has only ever reported serials that a checkin gave it. */
  predicate AppliedOk(issued: seq<Issue>, servers: map<nat, Server>) {
    forall x :: x in servers && servers[x].beacon.Some? && servers[x].beacon.value.applied.Some? ==>
      WasIssued(issued, x, servers[x].beacon.value.applied.value)
  }

  /** A commit on pair p moves every beacon of its environment to a new serial. */
  lemma CommittedKeepsFence(s: State, p: Pair, a: Assignment, from: Option<nat>, aptly: Aptly)
    requires FenceOk(s.issued, s.servers, s.assignments)
    ensures var s' := Committed(s, p, a, from, aptly); FenceOk(s'.issued, s'.servers, s'.assignments)
  {
    var s' := Committed(s, p, a, from, aptly);
    forall i | 0 <= i < |s.issued| ensures IssueOk(s.issued[i], s'.servers, s'.assignments) {
      assert IssueOk(s.issued[i], s.servers, s.assignments);
      assert s'.servers[s.issued[i].server] == Bumped(s.servers[s.issued[i].server], p.0);
    }
  }

  lemma UnassignKeepsFence(s: State, p: Pair)
    requires FenceOk(s.issued, s.servers, s.assignments)
    ensures FenceOk(s.issued, s.servers, s.assignments - {p})
  {
    forall i | 0 <= i < |s.issued| ensures IssueOk(s.issued[i], s.servers, s.assignments - {p}) {
      assert IssueOk(s.issued[i], s.servers, s.assignments);
    }
  }

  /** A server's row may change as long as its serial does not go back, and moves when it moves house. */
  ghost predicate Advances(x: Server, y: Server) {
    x.beacon.Some? ==>
      && y.beacon.Some? && x.beacon.value.serial <= y.beacon.value.serial
      && (x.beacon.value.serial == y.beacon.value.serial ==> x.environment == y.environment)
  }

  lemma ServerKeepsFence(issued: seq<Issue>, servers: map<nat, Server>, assignments: map<Pair, Assignment>, x: nat,
                         y: Server)
    requires FenceOk(issued, servers, assignments) && (x in servers ==> Advances(servers[x], y))
    ensures FenceOk(issued, servers[x := y], assignments)
  {
    forall i | 0 <= i < |issued| ensures IssueOk(issued[i], servers[x := y], assignments) {
      assert IssueOk(issued[i], servers, assignments);
    }
  }

  lemma CheckinKeepsFence(s: State, x: nat)
    requires FenceOk(s.issued, s.servers, s.assignments)
    ensures var s' := DoCheckin(s, x); FenceOk(s'.issued, s'.servers, s'.assignments)
  {
    if Answered(s, x) {
      var s' := DoCheckin(s, x);
      ServerKeepsFence(s.issued, s.servers, s.assignments, x, WithBeacon(s.servers[x]));
      forall i | 0 <= i < |s'.issued| ensures IssueOk(s'.issued[i], s'.servers, s'.assignments) {
        if i < |s.issued| {
          assert s'.issued[i] == s.issued[i];
        }
      }
    }
  }

  /** No report in between: what has been applied was issued before. */
  ghost predicate SameApplied(servers: map<nat, Server>, servers': map<nat, Server>) {
    forall x :: x in servers' && servers'[x].beacon.Some? && servers'[x].beacon.value.applied.Some? ==>
      x in servers && servers[x].beacon.Some? && servers[x].beacon.value.applied == servers'[x].beacon.value.applied
  }

  lemma MoreIssued(issued: seq<Issue>, issue: Issue, servers: map<nat, Server>, servers': map<nat, Server>)
    requires AppliedOk(issued, servers) && SameApplied(servers, servers')
    ensures AppliedOk(issued, servers') && AppliedOk(issued + [issue], servers')
  {
    forall x | x in servers' && servers'[x].beacon.Some? && servers'[x].beacon.value.applied.Some?
      ensures WasIssued(issued, x, servers'[x].beacon.value.applied.value)
      ensures WasIssued(issued + [issue], x, servers'[x].beacon.value.applied.value)
    {
      var i :| 0 <= i < |issued| && issued[i].server == x && issued[i].serial == servers'[x].beacon.value.applied.value;
      assert (issued + [issue])[i] == issued[i];
    }
  }
}
