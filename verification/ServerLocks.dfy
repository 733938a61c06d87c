/** The per-resource locks (app/locking.py) and the two job skeletons that take them
    (_run_locked_job and _run_locked_job_multi, app/tasks.py). */
module ServerLocks {
  import opened Sorting

  /** groundctl:lock:server:<id> and groundctl:lock:environment:<id> are different keys. */
  datatype Key = Server(id: nat) | Environment(id: nat)

  function Rank(k: Key): nat {
    match k
    case Server(id) => 2 * id
    case Environment(id) => 2 * id + 1
  }

  datatype Outcome = Worked | Contended(at: nat)

  datatype Phase =
    | Idle
    | Acquiring(taken: nat)                      // holds the first `taken` keys
    | Working                                    // holds every key
    | Releasing(outcome: Outcome, given: nat)    // the first `given` locks are back
    | Finished(outcome: Outcome)

  /** One attempt of a job: a single-resource job is an attempt with one key. */
  datatype Attempt = Attempt(keys: seq<Key>, phase: Phase)

  datatype State = State(attempts: seq<Attempt>, held: map<Key, nat>)

  datatype Step = Begin(j: nat) | Acquire(j: nat) | Enter(j: nat) | Leave(j: nat) | Release(j: nat)

  predicate InOrder(keys: seq<Key>) {
    forall i, j :: 0 <= i < j < |keys| ==> Rank(keys[i]) < Rank(keys[j])
  }

  function Init(keySets: seq<seq<Key>>): State {
    State(seq(|keySets|, i requires 0 <= i < |keySets| => Attempt(keySets[i], Idle)), map[])
  }

  /** How many locks an attempt with this outcome had taken, and so has to give back. */
  function Taken(a: Attempt, o: Outcome): nat {
    match o
    case Worked => |a.keys|
    case Contended(at) => at
  }

  function Move(s: State, j: nat, p: Phase): State
    requires j < |s.attempts|
  {
    s.(attempts := s.attempts[j := s.attempts[j].(phase := p)])
  }

  /** One non-blocking acquire: the lock, or contention. */
  function TakeNext(s: State, j: nat): State
    requires j < |s.attempts| && s.attempts[j].phase.Acquiring? && s.attempts[j].phase.taken < |s.attempts[j].keys|
  {
    var n := s.attempts[j].phase.taken;
    var key := s.attempts[j].keys[n];
    if key in s.held then Move(s, j, Releasing(Contended(n), 0))
    else Move(s.(held := s.held[key := j]), j, Acquiring(n + 1))
  }

  function GiveNext(s: State, j: nat): State
    requires j < |s.attempts| && s.attempts[j].phase.Releasing?
  {
    var a := s.attempts[j];
    var m := a.phase.given;
    if m < Taken(a, a.phase.outcome) && m < |a.keys| then
      Move(s.(held := s.held - {a.keys[m]}), j, Releasing(a.phase.outcome, m + 1))
    else Move(s, j, Finished(a.phase.outcome))
  }

  /** A step of an attempt that stands elsewhere changes nothing. */
  function Apply(s: State, step: Step): State {
    if step.j >= |s.attempts| then s else
      var a := s.attempts[step.j];
      match step
      case Begin(j) => if a.phase.Idle? then Move(s, j, Acquiring(0)) else s
      case Acquire(j) => if a.phase.Acquiring? && a.phase.taken < |a.keys| then TakeNext(s, j) else s
      case Enter(j) => if a.phase == Acquiring(|a.keys|) then Move(s, j, Working) else s
      case Leave(j) => if a.phase.Working? then Move(s, j, Releasing(Worked, 0)) else s
      case Release(j) => if a.phase.Releasing? then GiveNext(s, j) else s
  }

  function Run(s: State, steps: seq<Step>): (r: State)
    ensures |r.attempts| == |s.attempts|
    ensures forall j :: 0 <= j < |s.attempts| ==> r.attempts[j].keys == s.attempts[j].keys
    decreases |steps|
  {
    if steps == [] then s else Run(Apply(s, steps[0]), steps[1..])
  }

  /** The arrows an attempt moves along; contention is met only while acquiring, and leads away
      from the work for good. */
  predicate Moves(a: Attempt, b: Attempt) {
    && b.keys == a.keys
    && (b == a
        || match a.phase
           case Idle => b.phase == Acquiring(0)
           case Acquiring(n) =>
             if n < |a.keys| then b.phase == Acquiring(n + 1) || b.phase == Releasing(Contended(n), 0)
             else b.phase == Working
           case Working => b.phase == Releasing(Worked, 0)
           case Releasing(o, m) => b.phase == Releasing(o, m + 1) || b.phase == Finished(o)
           case Finished(_) => false)
  }

  lemma StepMoves(s: State, step: Step, j: nat)
    requires j < |s.attempts|
    ensures |Apply(s, step).attempts| == |s.attempts| && Moves(s.attempts[j], Apply(s, step).attempts[j])
  {
  }

  // ----- the invariant -------------------------------------------------------------------------------

  /** Whether the attempt's i-th lock is in its hands. */
  predicate HasLock(a: Attempt, i: int) {
    0 <= i < |a.keys| &&
    match a.phase
    case Idle => false
    case Acquiring(n) => i < n
    case Working => true
    case Releasing(o, m) => m <= i < Taken(a, o)
    case Finished(_) => false
  }

  predicate Sound(a: Attempt) {
    && InOrder(a.keys)
    && match a.phase
       case Idle => true
       case Acquiring(n) => n <= |a.keys|
       case Working => true
       case Releasing(o, m) => m <= Taken(a, o) && (o.Contended? ==> o.at < |a.keys|)
       case Finished(o) => o.Contended? ==> o.at < |a.keys|
  }

  /** The lock table says exactly what the attempts have in their hands. */
  ghost predicate Consistent(s: State) {
    && (forall j :: 0 <= j < |s.attempts| ==> Sound(s.attempts[j]))
    && (forall j, i :: 0 <= j < |s.attempts| && HasLock(s.attempts[j], i) ==>
                         s.attempts[j].keys[i] in s.held && s.held[s.attempts[j].keys[i]] == j)
    && (forall k :: k in s.held ==> Holder(s, k))
  }

  ghost predicate Holder(s: State, k: Key)
    requires k in s.held
  {
    && s.held[k] < |s.attempts|
    && exists i :: HasLock(s.attempts[s.held[k]], i) && s.attempts[s.held[k]].keys[i] == k
  }

  lemma MoveKeepsHolders(s: State, s': State, j: nat)
    requires Consistent(s) && j < |s.attempts|
    requires |s'.attempts| == |s.attempts| && s'.held == s.held
    requires forall h :: 0 <= h < |s.attempts| ==>
                           s'.attempts[h].keys == s.attempts[h].keys && Sound(s'.attempts[h])
                           && forall i :: HasLock(s'.attempts[h], i) <==> HasLock(s.attempts[h], i)
    ensures Consistent(s')
  {
    forall k | k in s'.held ensures Holder(s', k) {
      assert Holder(s, k);
      var i :| HasLock(s.attempts[s.held[k]], i) && s.attempts[s.held[k]].keys[i] == k;
      assert HasLock(s'.attempts[s'.held[k]], i);
    }
  }

  lemma TakeKeepsConsistent(s: State, j: nat)
    requires Consistent(s) && j < |s.attempts|
    requires s.attempts[j].phase.Acquiring? && s.attempts[j].phase.taken < |s.attempts[j].keys|
    ensures Consistent(TakeNext(s, j))
  {
    var s' := TakeNext(s, j);
    var n := s.attempts[j].phase.taken;
    var key := s.attempts[j].keys[n];
    if key in s.held {
      MoveKeepsHolders(s, s', j);
    } else {
      forall h, i | 0 <= h < |s'.attempts| && HasLock(s'.attempts[h], i)
        ensures s'.attempts[h].keys[i] in s'.held && s'.held[s'.attempts[h].keys[i]] == h
      {
        if !(h == j && i == n) {
          assert HasLock(s.attempts[h], i);
        }
      }
      forall k | k in s'.held ensures Holder(s', k) {
        if k == key {
          assert HasLock(s'.attempts[j], n);
        } else {
          assert Holder(s, k);
          var i :| HasLock(s.attempts[s.held[k]], i) && s.attempts[s.held[k]].keys[i] == k;
          assert HasLock(s'.attempts[s'.held[k]], i);
        }
      }
    }
  }

  lemma GiveKeepsHeld(s: State, j: nat, h: nat, i: nat)
    requires Consistent(s) && j < |s.attempts| && s.attempts[j].phase.Releasing?
    requires s.attempts[j].phase.given < Taken(s.attempts[j], s.attempts[j].phase.outcome)
    requires h < |s.attempts| && HasLock(GiveNext(s, j).attempts[h], i)
    ensures var s', key := GiveNext(s, j), s.attempts[h].keys[i]; key in s'.held && s'.held[key] == h
  {
    assert Sound(s.attempts[j]);
    assert HasLock(s.attempts[h], i);
    if h == j {
      assert Rank(s.attempts[j].keys[s.attempts[j].phase.given]) < Rank(s.attempts[j].keys[i]);
    } else {
      assert HasLock(s.attempts[j], s.attempts[j].phase.given);
    }
  }

  lemma GiveKeepsHolder(s: State, j: nat, k: Key)
    requires Consistent(s) && j < |s.attempts| && s.attempts[j].phase.Releasing?
    requires s.attempts[j].phase.given < Taken(s.attempts[j], s.attempts[j].phase.outcome)
    requires k in GiveNext(s, j).held
    ensures Holder(GiveNext(s, j), k)
  {
    assert Sound(s.attempts[j]);
    assert Holder(s, k);
    var i :| HasLock(s.attempts[s.held[k]], i) && s.attempts[s.held[k]].keys[i] == k;
    assert HasLock(GiveNext(s, j).attempts[s.held[k]], i);
  }

  lemma GiveKeepsConsistent(s: State, j: nat)
    requires Consistent(s) && j < |s.attempts| && s.attempts[j].phase.Releasing?
    ensures Consistent(GiveNext(s, j))
  {
    var s' := GiveNext(s, j);
    assert Sound(s.attempts[j]);
    if s.attempts[j].phase.given < Taken(s.attempts[j], s.attempts[j].phase.outcome) {
      forall h, i | 0 <= h < |s'.attempts| && HasLock(s'.attempts[h], i)
        ensures s'.attempts[h].keys[i] in s'.held && s'.held[s'.attempts[h].keys[i]] == h
      {
        GiveKeepsHeld(s, j, h, i);
      }
      forall k | k in s'.held ensures Holder(s', k) {
        GiveKeepsHolder(s, j, k);
      }
    } else {
      MoveKeepsHolders(s, s', j);
    }
  }

  lemma StepKeepsConsistent(s: State, step: Step)
    requires Consistent(s)
    ensures Consistent(Apply(s, step))
  {
    var s' := Apply(s, step);
    if s' != s {
      assert Sound(s.attempts[step.j]);
      match step
      case Acquire(j) => TakeKeepsConsistent(s, j);
      case Release(j) => GiveKeepsConsistent(s, j);
      case _ => MoveKeepsHolders(s, s', step.j);
    }
  }

  lemma {:induction false} RunKeepsConsistent(s: State, steps: seq<Step>)
    requires Consistent(s)
    ensures Consistent(Run(s, steps))
    decreases |steps|
  {
    if steps != [] {
      StepKeepsConsistent(s, steps[0]);
      RunKeepsConsistent(Apply(s, steps[0]), steps[1..]);
    }
  }

  ghost predicate Startable(keySets: seq<seq<Key>>) {
    forall j :: 0 <= j < |keySets| ==> InOrder(keySets[j])
  }

  // ----- mutual exclusion and no leak ------------------------------------------------------------------

  predicate Disjoint(a: seq<Key>, b: seq<Key>) {
    forall k :: k in a ==> k !in b
  }

  lemma WorkerHolds(s: State, j: nat, k: Key)
    requires Consistent(s) && j < |s.attempts| && s.attempts[j].phase.Working? && k in s.attempts[j].keys
    ensures k in s.held && s.held[k] == j
  {
    var i :| 0 <= i < |s.attempts[j].keys| && s.attempts[j].keys[i] == k;
    assert HasLock(s.attempts[j], i);
  }

  lemma HeldHasOwner(s: State, k: Key) returns (i: nat)
    requires Consistent(s) && k in s.held
    ensures s.held[k] < |s.attempts| && HasLock(s.attempts[s.held[k]], i) && s.attempts[s.held[k]].keys[i] == k
  {
    assert Holder(s, k);
    i :| HasLock(s.attempts[s.held[k]], i) && s.attempts[s.held[k]].keys[i] == k;
  }

  /** Work sections that are active at once have no lock key in common, in every interleaving. */
  lemma ActiveWorkIsDisjoint(keySets: seq<seq<Key>>, steps: seq<Step>, j: nat, h: nat)
    requires Startable(keySets) && j < |keySets| && h < |keySets| && j != h
    requires var s := Run(Init(keySets), steps); s.attempts[j].phase.Working? && s.attempts[h].phase.Working?
    ensures Disjoint(keySets[j], keySets[h])
  {
    RunKeepsConsistent(Init(keySets), steps);
    var s := Run(Init(keySets), steps);
    forall k | k in keySets[j] ensures k !in keySets[h] {
      WorkerHolds(s, j, k);
      if k in keySets[h] {
        WorkerHolds(s, h, k);
      }
    }
  }

  /** A finished attempt holds no lock, so when all have finished or never begun the table is empty. */
  lemma FinishedHoldsNothing(keySets: seq<seq<Key>>, steps: seq<Step>, j: nat)
    requires Startable(keySets) && j < |keySets|
    ensures var s := Run(Init(keySets), steps);
            && (s.attempts[j].phase.Finished? ==> forall k :: k in s.held ==> s.held[k] != j)
            && ((forall h :: 0 <= h < |keySets| ==> s.attempts[h].phase.Finished? || s.attempts[h].phase.Idle?) ==>
                  s.held == map[])
  {
    RunKeepsConsistent(Init(keySets), steps);
    var s := Run(Init(keySets), steps);
    if forall h :: 0 <= h < |keySets| ==> s.attempts[h].phase.Finished? || s.attempts[h].phase.Idle? {
      forall k ensures k !in s.held {
        if k in s.held {
          var i := HeldHasOwner(s, k);
        }
      }
    }
  }

  predicate HasWorked(a: Attempt) {
    a.phase.Working? || ((a.phase.Releasing? || a.phase.Finished?) && a.phase.outcome.Worked?)
  }

  predicate HasContended(a: Attempt) {
    (a.phase.Releasing? || a.phase.Finished?) && a.phase.outcome.Contended?
  }

  /** What an attempt has come to, it stays: it worked, or it lost, and where. */
  predicate SameFate(a: Attempt, b: Attempt) {
    && (HasWorked(a) ==> HasWorked(b))
    && (HasContended(a) ==> HasContended(b) && b.phase.outcome == a.phase.outcome)
  }

  lemma MoveKeepsFate(a: Attempt, b: Attempt)
    requires Moves(a, b)
    ensures SameFate(a, b)
  {
  }

  lemma {:induction false} FateIsFinal(s: State, steps: seq<Step>, j: nat)
    requires j < |s.attempts|
    ensures SameFate(s.attempts[j], Run(s, steps).attempts[j])
    decreases |steps|
  {
    if steps != [] {
      var next := Apply(s, steps[0]);
      StepMoves(s, steps[0], j);
      MoveKeepsFate(s.attempts[j], next.attempts[j]);
      FateIsFinal(next, steps[1..], j);
    }
  }

  /** An attempt that ends in contention ran its work at no moment before. */
  lemma ContendedNeverWorked(s: State, steps: seq<Step>, j: nat)
    requires j < |s.attempts| && HasContended(Run(s, steps).attempts[j])
    ensures !s.attempts[j].phase.Working?
  {
    FateIsFinal(s, steps, j);
  }

  // ----- sorted fail-fast locking never makes everyone lose ----------------------------------------------

  function LostKey(a: Attempt): Key
    requires Sound(a) && HasContended(a)
  {
    a.keys[a.phase.outcome.at]
  }

  /** Somebody accounts for a key that was found taken: they have worked, they still hold it on
      their way up, or they lost in turn, at a higher key. */
  ghost predicate Accounted(s: State, f: Key) {
    exists h :: 0 <= h < |s.attempts| && Accounts(s.attempts[h], f)
  }

  ghost predicate Accounts(a: Attempt, f: Key) {
    || HasWorked(a)
    || (a.phase.Acquiring? && exists i :: 0 <= i < a.phase.taken && i < |a.keys| && a.keys[i] == f)
    || (Sound(a) && HasContended(a) && Rank(LostKey(a)) > Rank(f))
  }

  ghost predicate LossesAccounted(s: State) {
    forall j :: 0 <= j < |s.attempts| && Sound(s.attempts[j]) && HasContended(s.attempts[j]) ==>
                  Accounted(s, LostKey(s.attempts[j]))
  }

  lemma HolderAccounts(s: State, k: Key)
    requires Consistent(s) && k in s.held
    ensures Accounted(s, k)
  {
    var i := HeldHasOwner(s, k);
    var a := s.attempts[s.held[k]];
    assert Sound(a);
    if HasContended(a) {
      assert Rank(a.keys[i]) < Rank(LostKey(a));
    }
    assert Accounts(a, k);
  }

  lemma AttemptKeepsAccounts(a: Attempt, b: Attempt, f: Key)
    requires Moves(a, b) && Sound(a) && Sound(b) && Accounts(a, f)
    ensures Accounts(b, f)
  {
    if a.phase.Acquiring? {
      var i :| 0 <= i < a.phase.taken && i < |a.keys| && a.keys[i] == f;
      if b.phase.Acquiring? {
        assert i < b.phase.taken && b.keys[i] == f;
      } else if HasContended(b) {
        assert Rank(a.keys[i]) < Rank(LostKey(b));
      }
    }
  }

  lemma StepKeepsAccounts(s: State, step: Step, f: Key)
    requires Consistent(s) && Accounted(s, f)
    ensures Accounted(Apply(s, step), f)
  {
    var h :| 0 <= h < |s.attempts| && Accounts(s.attempts[h], f);
    StepKeepsConsistent(s, step);
    StepMoves(s, step, h);
    assert Sound(s.attempts[h]) && Sound(Apply(s, step).attempts[h]);
    AttemptKeepsAccounts(s.attempts[h], Apply(s, step).attempts[h], f);
  }

  /** An attempt loses only by asking for a key that is held. */
  lemma LosesToAHolder(s: State, step: Step, j: nat)
    requires j < |s.attempts| && Sound(s.attempts[j]) && !HasContended(s.attempts[j])
    requires Sound(Apply(s, step).attempts[j]) && HasContended(Apply(s, step).attempts[j])
    ensures LostKey(Apply(s, step).attempts[j]) in s.held
  {
    assert step == Acquire(j);
  }

  lemma LossStaysAccounted(s: State, step: Step, j: nat)
    requires Consistent(s) && LossesAccounted(s) && j < |s.attempts|
    requires Sound(Apply(s, step).attempts[j]) && HasContended(Apply(s, step).attempts[j])
    ensures Accounted(Apply(s, step), LostKey(Apply(s, step).attempts[j]))
  {
    var f := LostKey(Apply(s, step).attempts[j]);
    assert Sound(s.attempts[j]);
    if HasContended(s.attempts[j]) {
      StepMoves(s, step, j);
    } else {
      LosesToAHolder(s, step, j);
      HolderAccounts(s, f);
    }
    StepKeepsAccounts(s, step, f);
  }

  lemma StepKeepsLossesAccounted(s: State, step: Step)
    requires Consistent(s) && LossesAccounted(s)
    ensures LossesAccounted(Apply(s, step))
  {
    var s' := Apply(s, step);
    forall j | 0 <= j < |s'.attempts| && Sound(s'.attempts[j]) && HasContended(s'.attempts[j])
      ensures Accounted(s', LostKey(s'.attempts[j]))
    {
      LossStaysAccounted(s, step, j);
    }
  }

  lemma {:induction false} RunKeepsLossesAccounted(s: State, steps: seq<Step>)
    requires Consistent(s) && LossesAccounted(s)
    ensures LossesAccounted(Run(s, steps))
    decreases |steps|
  {
    if steps != [] {
      StepKeepsConsistent(s, steps[0]);
      StepKeepsLossesAccounted(s, steps[0]);
      RunKeepsLossesAccounted(Apply(s, steps[0]), steps[1..]);
    }
  }

  /** Among the first n attempts, one that lost at the highest key, if any lost. */
  lemma {:induction false} HighestLoss(s: State, n: nat) returns (top: nat)
    requires Consistent(s) && n <= |s.attempts|
    requires exists j :: 0 <= j < n && HasContended(s.attempts[j])
    ensures top < n && Sound(s.attempts[top]) && HasContended(s.attempts[top])
    ensures forall j :: 0 <= j < n && Sound(s.attempts[j]) && HasContended(s.attempts[j]) ==>
                          Rank(LostKey(s.attempts[j])) <= Rank(LostKey(s.attempts[top]))
  {
    var last := n - 1;
    assert Sound(s.attempts[last]);
    if exists j :: 0 <= j < last && HasContended(s.attempts[j]) {
      top := HighestLoss(s, last);
      if HasContended(s.attempts[last]) && Rank(LostKey(s.attempts[last])) > Rank(LostKey(s.attempts[top])) {
        top := last;
      }
    } else {
      top := last;
    }
  }

  /** However the acquires and releases interleave: if every attempt that began has finished and
      some attempt lost to contention, some attempt entered its work. */
  lemma SomeoneAlwaysWorks(keySets: seq<seq<Key>>, steps: seq<Step>)
    requires Startable(keySets)
    requires var s := Run(Init(keySets), steps);
             && (forall j :: 0 <= j < |s.attempts| ==> s.attempts[j].phase.Idle? || s.attempts[j].phase.Finished?)
             && (exists j :: 0 <= j < |s.attempts| && HasContended(s.attempts[j]))
    ensures var s := Run(Init(keySets), steps);
            exists j :: 0 <= j < |s.attempts| && s.attempts[j].phase == Finished(Worked)
  {
    var s := Run(Init(keySets), steps);
    RunKeepsConsistent(Init(keySets), steps);
    RunKeepsLossesAccounted(Init(keySets), steps);
    var top := HighestLoss(s, |s.attempts|);
    assert Accounted(s, LostKey(s.attempts[top]));
    var h :| 0 <= h < |s.attempts| && Accounts(s.attempts[h], LostKey(s.attempts[top]));
    assert s.attempts[h].phase == Finished(Worked);
  }

  // ----- which jobs can be at work together ------------------------------------------------------------------

  lemma {:induction false} RunAppend(s: State, before: seq<Step>, after: seq<Step>)
    ensures Run(s, before + after) == Run(Run(s, before), after)
    decreases |before|
  {
    if before == [] {
      assert before + after == after;
    } else {
      assert (before + after)[1..] == before[1..] + after;
      RunAppend(Apply(s, before[0]), before[1..], after);
    }
  }

  function Climb(j: nat, left: nat): seq<Step> {
    if left == 0 then [Enter(j)] else [Acquire(j)] + Climb(j, left - 1)
  }

  /** With nobody in the way, an attempt takes the rest of its keys and enters its work. */
  lemma {:induction false} ClimbReachesWork(s: State, j: nat)
    requires j < |s.attempts| && Sound(s.attempts[j]) && s.attempts[j].phase.Acquiring?
    requires forall i :: s.attempts[j].phase.taken <= i < |s.attempts[j].keys| ==> s.attempts[j].keys[i] !in s.held
    ensures var s' := Run(s, Climb(j, |s.attempts[j].keys| - s.attempts[j].phase.taken));
            && s'.attempts == s.attempts[j := s.attempts[j].(phase := Working)]
            && forall k :: k in s'.held ==> k in s.held || k in s.attempts[j].keys
    decreases |s.attempts[j].keys| - s.attempts[j].phase.taken
  {
    var a := s.attempts[j];
    var left := |a.keys| - a.phase.taken;
    if left == 0 {
      assert Run(Apply(s, Enter(j)), []) == Apply(s, Enter(j));
    } else {
      var s1 := Apply(s, Acquire(j));
      forall i | a.phase.taken + 1 <= i < |a.keys| ensures a.keys[i] !in s1.held {
        assert Rank(a.keys[a.phase.taken]) < Rank(a.keys[i]);
      }
      ClimbReachesWork(s1, j);
      assert Climb(j, left)[1..] == Climb(j, left - 1);
    }
  }

  /** Two jobs can be at work at the same time exactly when they share no lock key. */
  lemma CanWorkTogether(a: seq<Key>, b: seq<Key>)
    requires InOrder(a) && InOrder(b)
    ensures (exists steps :: var s := Run(Init([a, b]), steps);
                             s.attempts[0].phase.Working? && s.attempts[1].phase.Working?)
            <==> Disjoint(a, b)
  {
    var s0 := Init([a, b]);
    if Disjoint(a, b) {
      var s1 := Apply(s0, Begin(0));
      ClimbReachesWork(s1, 0);
      var s2 := Run(s1, Climb(0, |a|));
      var s3 := Apply(s2, Begin(1));
      ClimbReachesWork(s3, 1);
      var first, second := [Begin(0)] + Climb(0, |a|), [Begin(1)] + Climb(1, |b|);
      assert first[1..] == Climb(0, |a|) && second[1..] == Climb(1, |b|);
      RunAppend(s0, first, second);
      var s := Run(s0, first + second);
      assert s.attempts[0].phase.Working? && s.attempts[1].phase.Working?;
    }
    forall steps | var s := Run(s0, steps); s.attempts[0].phase.Working? && s.attempts[1].phase.Working?
      ensures Disjoint(a, b)
    {
      ActiveWorkIsDisjoint([a, b], steps, 0, 1);
    }
  }

  /** So a job locked by environment never keeps a server-locked job out, whichever servers the
      environment holds. */
  lemma EnvironmentLockDoesNotExcludeServerLocks(environment: nat, servers: seq<Key>)
    requires InOrder(servers) && forall k :: k in servers ==> k.Server?
    ensures exists steps :: var s := Run(Init([[Environment(environment)], servers]), steps);
                            s.attempts[0].phase.Working? && s.attempts[1].phase.Working?
  {
    CanWorkTogether([Environment(environment)], servers);
  }

  // ----- the skeleton itself ------------------------------------------------------------------------------------

  function ServerKeys(ids: seq<nat>): seq<Key> {
    seq(|ids|, i requires 0 <= i < |ids| => Server(ids[i]))
  }

  function Elements(keys: seq<Key>): set<Key> {
    set k | k in keys
  }

  predicate AtMost(a: nat, b: nat) {
    a <= b
  }

  ghost predicate NoDuplicates(ids: seq<nat>) {
    forall n :: multiset(ids)[n] <= 1
  }

  lemma SortedStrictly(ids: seq<nat>, i: nat, j: nat)
    requires NoDuplicates(ids) && i < j < |Sorted(ids, AtMost)|
    ensures Sorted(ids, AtMost)[i] < Sorted(ids, AtMost)[j]
  {
    var sorted := Sorted(ids, AtMost);
    SortedAscends(ids, AtMost);
    assert AtMost(sorted[i], sorted[j]);
    if sorted[i] == sorted[j] {
      TwiceCounts(sorted, i, j);
    }
  }

  lemma SortedKeepsId(ids: seq<nat>, n: nat)
    ensures Server(n) in ServerKeys(Sorted(ids, AtMost)) <==> n in ids
  {
    var sorted := Sorted(ids, AtMost);
    assert n in ids <==> n in multiset(ids);
    if n in ids {
      assert n in multiset(sorted);
      var i :| 0 <= i < |sorted| && sorted[i] == n;
      assert ServerKeys(sorted)[i] == Server(n);
    }
    if Server(n) in ServerKeys(sorted) {
      var i :| 0 <= i < |sorted| && ServerKeys(sorted)[i] == Server(n);
      assert n in multiset(sorted);
    }
  }

  /** Distinct JobServer rows, sorted, are keys in order. */
  lemma SortedServersAreInOrder(ids: seq<nat>)
    requires NoDuplicates(ids)
    ensures InOrder(ServerKeys(Sorted(ids, AtMost)))
    ensures forall n :: Server(n) in ServerKeys(Sorted(ids, AtMost)) <==> n in ids
  {
    var sorted := Sorted(ids, AtMost);
    forall i, j | 0 <= i < j < |sorted| ensures sorted[i] < sorted[j] {
      SortedStrictly(ids, i, j);
    }
    forall n: nat ensures Server(n) in ServerKeys(sorted) <==> n in ids {
      SortedKeepsId(ids, n);
    }
  }

  lemma SortedLength(ids: seq<nat>)
    ensures |Sorted(ids, AtMost)| == |ids|
  {
    assert |ids| == |multiset(ids)| == |multiset(Sorted(ids, AtMost))| == |Sorted(ids, AtMost)|;
  }

  lemma KeysOfServers(ids: seq<nat>)
    requires NoDuplicates(ids)
    ensures Elements(ServerKeys(Sorted(ids, AtMost))) == set n | n in ids :: Server(n)
  {
    SortedServersAreInOrder(ids);
    var keys := ServerKeys(Sorted(ids, AtMost));
    forall k | k in keys ensures k.Server? && k.id in ids {
      assert Server(k.id) in keys;
    }
  }

  /** The keys of a job are those of its servers, one each. */
  lemma JobKeys(ids: seq<nat>)
    requires NoDuplicates(ids)
    ensures var sorted := Sorted(ids, AtMost);
            && InOrder(ServerKeys(sorted)) && |sorted| == |ids|
            && Elements(ServerKeys(sorted)) == (set n | n in ids :: Server(n))
            && forall i :: 0 <= i < |sorted| ==> sorted[i] in ids
  {
    var sorted := Sorted(ids, AtMost);
    SortedServersAreInOrder(ids);
    SortedLength(ids);
    KeysOfServers(ids);
    forall i | 0 <= i < |sorted| ensures sorted[i] in ids {
      assert ServerKeys(sorted)[i] == Server(sorted[i]);
    }
  }

  lemma HeadLeavesTail(keys: seq<Key>, i: nat)
    requires InOrder(keys) && i < |keys|
    ensures Elements(keys[i..]) - {keys[i]} == Elements(keys[i + 1..])
  {
    assert keys[i..] == [keys[i]] + keys[i + 1..];
    forall j | i < j < |keys| ensures keys[j] != keys[i] {
      assert Rank(keys[i]) < Rank(keys[j]);
    }
  }

  /** The shared lock table in Redis. Between two calls of one job the other jobs may do
      anything to it except touch the locks that this job holds. */
  class LockTable {
    var held: map<Key, nat>

    ghost function Of(me: nat): set<Key>
      reads this
    {
      set k | k in held && held[k] == me
    }

    // lock.acquire(blocking=False)
    method AcquireLock(key: Key, me: nat) returns (got: bool)
      modifies this
      ensures got <==> key !in old(held)
      ensures held == if got then old(held)[key := me] else old(held)
    {
      got := key !in held;
      if got {
        held := held[key := me];
      }
    }

    method ReleaseLock(key: Key)
      modifies this
      ensures held == old(held) - {key}
    {
      held := held - {key};
    }

    // Whatever the other jobs do in the meantime; nothing when it is quiet.
    method Others(ghost me: nat, ghost quiet: bool)
      modifies this
      ensures Of(me) == old(Of(me))
      ensures quiet ==> held == old(held)
    {
    }

    // The acquiring loop: stops at the first key that somebody else holds.
    method AcquireAll(keys: seq<Key>, me: nat, ghost quiet: bool) returns (locks: seq<Key>, contention: bool)
      requires Of(me) == {}
      modifies this
      ensures locks <= keys && (contention <==> locks != keys)
      ensures Of(me) == Elements(locks)
      ensures contention ==> keys[|locks|] in held
      ensures contention && InOrder(keys) ==> held[keys[|locks|]] != me
      ensures quiet ==> held == Grown(old(held), locks, me) && forall k :: k in locks ==> k !in old(held)
    {
      locks := [];
      contention := false;
      assert Grown(held, [], me) == held;
      while |locks| < |keys| && !contention
        invariant locks <= keys && (contention ==> |locks| < |keys| && keys[|locks|] in held)
        invariant Of(me) == Elements(locks)
        invariant quiet ==> held == Grown(old(held), locks, me) && forall k :: k in locks ==> k !in old(held)
        decreases |keys| - |locks|, !contention
      {
        Others(me, quiet);
        var got := AcquireLock(keys[|locks|], me);
        if got {
          assert Of(me) == Elements(locks) + {keys[|locks|]};
          locks := locks + [keys[|locks|]];
        } else {
          contention := true;
        }
      }
      if contention && InOrder(keys) {
        NotAmongEarlier(keys, |locks|);
        assert keys[..|locks|] == locks;
        assert keys[|locks|] !in Of(me);
      }
    }

    // The finally block: gives the locks back in the order they were taken.
    method ReleaseAll(locks: seq<Key>, me: nat, ghost quiet: bool)
      requires InOrder(locks) && Of(me) == Elements(locks)
      modifies this
      ensures Of(me) == {}
      ensures quiet ==> held == old(held) - Elements(locks)
    {
      for i := 0 to |locks|
        invariant Of(me) == Elements(locks[i..])
        invariant quiet ==> held == old(held) - Elements(locks[..i])
      {
        Others(me, quiet);
        ReleaseLock(locks[i]);
        HeadLeavesTail(locks, i);
        assert locks[..i + 1] == locks[..i] + [locks[i]];
      }
      assert locks[..|locks|] == locks;
    }

    /** _run_locked_job_multi from the first acquire on: the work runs under exactly this job's
        locks or not at all, nothing is left behind, and contention means that somebody else held the
        key it names when it was asked for. `underWork` is what the job held throughout its work,
        `asked` the table at its last acquire; when it is `quiet` no other job acts in between. */
    method RunLockedMulti(serverIds: seq<nat>, me: nat, ghost quiet: bool)
      returns (outcome: Outcome, ghost underWork: set<Key>, ghost asked: map<Key, nat>)
      requires NoDuplicates(serverIds) && Of(me) == {}
      modifies this
      ensures Of(me) == {}
      ensures outcome.Worked? ==> underWork == set n | n in serverIds :: Server(n)
      ensures outcome.Contended? ==> underWork == {} && outcome.at < |serverIds| == |Sorted(serverIds, AtMost)|
      ensures outcome.Contended? ==>
                var key := Server(Sorted(serverIds, AtMost)[outcome.at]);
                key in asked && asked[key] != me && key.id in serverIds
      ensures quiet ==> held == old(held)
      ensures quiet ==> (outcome.Worked? <==> (set n | n in serverIds :: Server(n)) !! old(held).Keys)
    {
      underWork := {};
      var keys := ServerKeys(Sorted(serverIds, AtMost));
      JobKeys(serverIds);
      var locks, contention := AcquireAll(keys, me, quiet);
      asked := held;
      if contention {
        outcome := Contended(|locks|);
        assert keys[|locks|] in keys;
        NotAmongEarlier(keys, |locks|);
      } else {
        outcome := Worked;
        Others(me, quiet);
        underWork := Of(me);
      }
      ReleaseAll(locks, me, quiet);
      assert quiet ==> held == old(held);
    }
  }

  /** The table with the keys taken by `me` as well. */
  ghost function Grown(held: map<Key, nat>, keys: seq<Key>, me: nat): map<Key, nat> {
    map k | k in held.Keys + Elements(keys) :: if k in keys then me else held[k]
  }

  lemma NotAmongEarlier(keys: seq<Key>, n: nat)
    requires InOrder(keys) && n < |keys|
    ensures keys[n] !in keys[..n]
  {
    forall i | 0 <= i < n ensures keys[i] != keys[n] {
      assert Rank(keys[i]) < Rank(keys[n]);
    }
  }
}
