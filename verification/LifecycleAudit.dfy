/** The audit trail: it replays to the live table, and a purge leaves its end. */
module LifecycleAudit {
  import opened Options
  import opened AptlyServer
  import opened Lifecycle
  import opened LifecycleCatalog
  import opened LifecycleAssignments

  /** The version that the last row of the assignment left it at. */
  function Replay(rows: seq<Row>, assignment: nat): Option<nat>
    decreases |rows|
  {
    if rows == [] then None
    else
      var last := rows[|rows| - 1];
      if last.assignment == assignment then Some(last.version) else Replay(rows[..|rows| - 1], assignment)
  }

  /** Every row starts where the row before it, of the same assignment, ended. */
  ghost predicate Chained(history: seq<Row>) {
    forall i :: 0 <= i < |history| ==> history[i].from == Replay(history[..i], history[i].assignment)
  }

  predicate InTime(rows: seq<Row>, now: nat) {
    && (forall i, j :: 0 <= i < j < |rows| ==> rows[i].time <= rows[j].time)
    && (forall i :: 0 <= i < |rows| ==> rows[i].time <= now)
  }

  predicate IsEnd(audit: seq<Row>, history: seq<Row>) {
    |audit| <= |history| && audit == history[|history| - |audit|..]
  }

  ghost predicate ReplaysTo(history: seq<Row>, assignments: map<Pair, Assignment>) {
    forall p :: p in assignments ==> Replay(history, assignments[p].id) == Some(assignments[p].current)
  }

  ghost predicate TrailOk(s: State) {
    InTime(s.history, s.now) && IsEnd(s.audit, s.history) && Chained(s.history) && ReplaysTo(s.history, s.assignments)
  }

  lemma ReplayOneMore(history: seq<Row>, row: Row, assignment: nat)
    ensures Replay(history + [row], assignment) ==
              if row.assignment == assignment then Some(row.version) else Replay(history, assignment)
  {
    assert (history + [row])[..|history|] == history;
  }

  lemma ChainedOneMore(history: seq<Row>, row: Row)
    requires Chained(history) && row.from == Replay(history, row.assignment)
    ensures Chained(history + [row])
  {
    var history' := history + [row];
    forall i | 0 <= i < |history'| ensures history'[i].from == Replay(history'[..i], history'[i].assignment) {
      assert history'[..i] == history[..i];
      assert history[..|history|] == history;
    }
  }

  lemma {:induction false} NoRowsNoReplay(rows: seq<Row>, assignment: nat)
    requires forall i :: 0 <= i < |rows| ==> rows[i].assignment != assignment
    ensures Replay(rows, assignment) == None
    decreases |rows|
  {
    if rows != [] {
      NoRowsNoReplay(rows[..|rows| - 1], assignment);
    }
  }

  lemma OneMoreInTime(history: seq<Row>, row: Row, now: nat)
    requires InTime(history, now) && row.time == now
    ensures InTime(history + [row], now)
  {
    var history' := history + [row];
    assert forall i :: 0 <= i < |history| ==> history'[i] == history[i];
  }

  lemma OneMoreIsEnd(audit: seq<Row>, history: seq<Row>, row: Row)
    requires IsEnd(audit, history)
    ensures IsEnd(audit + [row], history + [row])
  {
    var k := |history| - |audit|;
    assert (history + [row])[k..] == history[k..] + [row];
  }

  lemma OneMoreReplays(history: seq<Row>, assignments: map<Pair, Assignment>, p: Pair, a: Assignment, row: Row)
    requires ReplaysTo(history, assignments) && row.assignment == a.id && row.version == a.current
    requires forall q :: q in assignments && q != p ==> assignments[q].id != a.id
    ensures ReplaysTo(history + [row], assignments[p := a])
  {
    var assignments' := assignments[p := a];
    forall q | q in assignments'
      ensures Replay(history + [row], assignments'[q].id) == Some(assignments'[q].current)
    {
      ReplayOneMore(history, row, assignments'[q].id);
    }
  }

  lemma CommittedKeepsTrail(s: State, p: Pair, a: Assignment, from: Option<nat>, aptly: Aptly)
    requires TrailOk(s) && from == Replay(s.history, a.id)
    requires forall q :: q in s.assignments && q != p ==> s.assignments[q].id != a.id
    ensures TrailOk(Committed(s, p, a, from, aptly))
  {
    var row := Row(a.id, a.current, from, s.now);
    OneMoreInTime(s.history, row, s.now);
    OneMoreIsEnd(s.audit, s.history, row);
    ChainedOneMore(s.history, row);
    OneMoreReplays(s.history, s.assignments, p, a, row);
  }

  lemma {:induction false} SinceAll(rows: seq<Row>, threshold: int)
    requires forall i :: 0 <= i < |rows| ==> rows[i].time >= threshold
    ensures Since(rows, threshold) == rows
  {
    if rows != [] {
      SinceAll(rows[1..], threshold);
      assert rows == [rows[0]] + rows[1..];
    }
  }

  /** A purge keeps a row exactly if it is not older than the threshold, whatever the order. */
  lemma {:induction false} SinceHolds(rows: seq<Row>, threshold: int, row: Row)
    ensures row in Since(rows, threshold) <==> row in rows && row.time >= threshold
  {
    if rows != [] {
      SinceHolds(rows[1..], threshold, row);
      assert row in rows <==> row == rows[0] || row in rows[1..];
    }
  }

  /** In time order, what is left after a purge is the end of what was there, from the first row that
      is not older than the threshold. */
  lemma {:induction false} SinceIsEnd(rows: seq<Row>, threshold: int)
    requires forall i, j :: 0 <= i < j < |rows| ==> rows[i].time <= rows[j].time
    ensures IsEnd(Since(rows, threshold), rows)
    ensures forall i :: 0 <= i < |rows| ==> (i >= |rows| - |Since(rows, threshold)| <==> rows[i].time >= threshold)
  {
    if rows != [] {
      if rows[0].time >= threshold {
        SinceAll(rows, threshold);
      } else {
        var rest, kept := rows[1..], Since(rows[1..], threshold);
        SinceIsEnd(rest, threshold);
        assert Since(rows, threshold) == kept;
        assert rest[|rest| - |kept|..] == rows[|rows| - |kept|..];
        assert forall i :: 0 < i < |rows| ==> rows[i] == rest[i - 1];
      }
    }
  }

  lemma EndInTime(audit: seq<Row>, history: seq<Row>, now: nat)
    requires IsEnd(audit, history) && InTime(history, now)
    ensures InTime(audit, now)
  {
    var k := |history| - |audit|;
    assert forall i :: 0 <= i < |audit| ==> audit[i] == history[k + i];
  }

  lemma PurgeKeepsTrail(s: State, retention: nat)
    requires TrailOk(s)
    ensures TrailOk(DoPurgeAudit(s, retention))
  {
    EndInTime(s.audit, s.history, s.now);
    SinceIsEnd(s.audit, s.now - retention);
    var kept := Since(s.audit, s.now - retention);
    assert kept == s.history[|s.history| - |kept|..];
  }

  lemma AssignKeepsTrail(s: State, p: Pair, version: nat, refused: bool)
    requires TrailOk(s) && IdsOk(s)
    ensures TrailOk(DoAssign(s, p, version, refused))
  {
    if Assignable(s, p, version) && Promoted(s, NewAssignment(s, p, version)).Some? {
      NoRowsNoReplay(s.history, s.nextId);
      CommittedKeepsTrail(s, p, NewAssignment(s, p, version), None, Promoted(s, NewAssignment(s, p, version)).value);
    }
  }

  lemma PromoteKeepsTrail(s: State, p: Pair, version: nat, refused: bool)
    requires TrailOk(s) && ApartOk(s.assignments)
    ensures TrailOk(DoPromote(s, p, version, refused))
  {
    if Promotable(s, p, version) && Promoted(s, s.assignments[p].(current := version)).Some? {
      var a := s.assignments[p].(current := version);
      CommittedKeepsTrail(s, p, a, Some(s.assignments[p].current), Promoted(s, a).value);
    }
  }

  lemma RollbackKeepsTrail(s: State, p: Pair, version: nat, refused: bool)
    requires TrailOk(s) && ApartOk(s.assignments)
    ensures TrailOk(DoRollback(s, p, version, refused))
  {
    if RollbackAccepts(s, p, version) && Switched(s, s.assignments[p].(current := version)).Some? {
      var a := s.assignments[p].(current := version);
      CommittedKeepsTrail(s, p, a, Some(s.assignments[p].current), Switched(s, a).value);
    }
  }
}
