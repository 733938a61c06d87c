/** The promotion path (app/routers/lifecycle_environments.py): a table of environments with
    integer positions that may have gaps, and the plain list it stands for. */
module PromotionPath {
  import opened Options

  const LIBRARY := "Library"

  datatype Op =
    | Create(prior: Option<nat>, name: string)
    | Delete(id: nat, inUse: bool)     // `inUse`: a content view or a server still points at it

  datatype Reply = Created(id: nat) | Deleted | NotFound | NameTaken | StillAssigned | IntegrityError

  // ----- the plain list ---------------------------------------------------------------------------

  datatype Entry = Entry(id: nat, name: string)

  /** `rooted`: the head is the seeded Library and not just some environment that came to lead. */
  datatype Path = Path(entries: seq<Entry>, rooted: bool, next: nat)

  predicate HasName(p: Path, name: string) {
    exists i :: 0 <= i < |p.entries| && p.entries[i].name == name
  }

  predicate HasId(entries: seq<Entry>, id: nat) {
    exists i :: 0 <= i < |entries| && entries[i].id == id
  }

  function IndexOf(entries: seq<Entry>, id: nat): (i: nat)
    requires HasId(entries, id)
    ensures i < |entries| && entries[i].id == id
  {
    if entries[0].id == id then 0
    else
      assert HasId(entries[1..], id) by {
        var i :| 0 <= i < |entries| && entries[i].id == id;
        assert entries[1..][i - 1].id == id;
      }
      1 + IndexOf(entries[1..], id)
  }

  /** Put a new environment right after the i-th one. */
  function InsertAt(p: Path, i: nat, name: string): Path
    requires i < |p.entries|
  {
    Path(p.entries[..i + 1] + [Entry(p.next, name)] + p.entries[i + 1..], p.rooted, p.next + 1)
  }

  function RemoveAt(p: Path, i: nat): Path
    requires i < |p.entries|
  {
    Path(p.entries[..i] + p.entries[i + 1..], p.rooted && i != 0, p.next)
  }

  function EnsureLibrary(p: Path): Path {
    if p.rooted then p else Path([Entry(p.next, LIBRARY)] + p.entries, true, p.next + 1)
  }

  function ListApply(p: Path, op: Op): (r: (Path, Reply))
    requires p.rooted ==> p.entries != []
    ensures r.0.rooted ==> r.0.entries != []
  {
    match op
    case Create(Some(prior), name) =>
      if !HasId(p.entries, prior) then (p, NotFound)
      else if HasName(p, name) then (p, NameTaken)
      else (InsertAt(p, IndexOf(p.entries, prior), name), Created(p.next))
    case Create(None, name) =>
      if !p.rooted && HasName(p, LIBRARY) then (p, IntegrityError)
      else
        var q := EnsureLibrary(p);
        if HasName(q, name) then (p, NameTaken)
        else (InsertAt(q, |q.entries| - 1, name), Created(q.next))
    case Delete(id, inUse) =>
      if !HasId(p.entries, id) then (p, NotFound)
      else if inUse then (p, StillAssigned)
      else (RemoveAt(p, IndexOf(p.entries, id)), Deleted)
  }

  /** Creating after a prior goes through exactly if the prior is there and the name is free; the new
      environment then stands right behind it, and the others as they did. */
  lemma CreateAfterIff(p: Path, prior: nat, name: string)
    requires p.rooted ==> p.entries != []
    ensures var (q, reply) := ListApply(p, Create(Some(prior), name));
            if !HasId(p.entries, prior) then reply == NotFound && q == p
            else if HasName(p, name) then reply == NameTaken && q == p
            else
              var i := IndexOf(p.entries, prior);
              && reply == Created(p.next) && q.next == p.next + 1 && |q.entries| == |p.entries| + 1
              && q.entries[i + 1] == Entry(p.next, name)
              && (forall k :: 0 <= k <= i ==> q.entries[k] == p.entries[k])
              && (forall k :: i + 1 < k < |q.entries| ==> q.entries[k] == p.entries[k - 1])
  {
  }

  /** Creating without a prior puts the new environment last, behind the Library, which heads the path
      from then on. */
  lemma CreateLastPlaces(p: Path, name: string)
    requires p.rooted ==> p.entries != []
    ensures var (q, reply) := ListApply(p, Create(None, name));
            if reply.Created? then
              && |q.entries| >= 2 && q.entries[|q.entries| - 1] == Entry(reply.id, name) && q.rooted
              && q.entries[..|q.entries| - 1] ==
                   (if p.rooted then p.entries else [Entry(p.next, LIBRARY)] + p.entries)
            else q == p
  {
  }

  /** Deleting goes through exactly if the environment is there and unused; it is then gone, and the
      others stand as they did. */
  lemma DeleteIff(p: Path, id: nat, inUse: bool)
    requires p.rooted ==> p.entries != []
    ensures var (q, reply) := ListApply(p, Delete(id, inUse));
            if !HasId(p.entries, id) then reply == NotFound && q == p
            else if inUse then reply == StillAssigned && q == p
            else
              var i := IndexOf(p.entries, id);
              && reply == Deleted && p.entries == q.entries[..i] + [p.entries[i]] + q.entries[i..]
  {
  }

  // ----- the table -----------------------------------------------------------------------------------

  datatype Env = Env(name: string, position: nat)

  datatype Table = Table(rows: map<nat, Env>, next: nat)

  predicate NameInUse(t: Table, name: string) {
    exists id :: id in t.rows && t.rows[id].name == name
  }

  predicate HasRoot(t: Table) {
    exists id :: id in t.rows && t.rows[id].position == 0
  }

  ghost predicate IsTail(t: Table, id: nat) {
    id in t.rows && forall e :: e in t.rows ==> t.rows[e].position <= t.rows[id].position
  }

  function MakeRoom(rows: map<nat, Env>, from: nat): map<nat, Env> {
    map id | id in rows :: if rows[id].position >= from then rows[id].(position := rows[id].position + 1) else rows[id]
  }

  function InsertAfter(t: Table, prior: nat, name: string): Table
    requires prior in t.rows
  {
    var at := t.rows[prior].position + 1;
    Table(MakeRoom(t.rows, at)[t.next := Env(name, at)], t.next + 1)
  }

  function SeedLibrary(t: Table): Table {
    if HasRoot(t) then t else Table(t.rows[t.next := Env(LIBRARY, 0)], t.next + 1)
  }

  /** The row with the greatest position; 0 when there is no row at all. */
  ghost function Tail(t: Table): nat {
    if exists id: nat :: IsTail(t, id) then var id: nat :| IsTail(t, id); id else 0
  }

  ghost function TableApply(t: Table, op: Op): (Table, Reply) {
    match op
    case Create(Some(prior), name) =>
      if prior !in t.rows then (t, NotFound)
      else if NameInUse(t, name) then (t, NameTaken)
      else (InsertAfter(t, prior, name), Created(t.next))
    case Create(None, name) =>
      if !HasRoot(t) && NameInUse(t, LIBRARY) then (t, IntegrityError)   // the seed's unique name
      else
        var seeded := SeedLibrary(t);
        var tail := Tail(seeded);
        if NameInUse(seeded, name) then (t, NameTaken)                   // nothing was committed
        else if tail in seeded.rows then (InsertAfter(seeded, tail, name), Created(seeded.next))
        else (t, NotFound)
    case Delete(id, inUse) =>
      if id !in t.rows then (t, NotFound)
      else if inUse then (t, StillAssigned)
      else (t.(rows := t.rows - {id}), Deleted)
  }

  // ----- the table stands for the list --------------------------------------------------------------------

  ghost predicate SameIds(t: Table, p: Path) {
    forall id: nat :: id in t.rows <==> HasId(p.entries, id)
  }

  ghost predicate SameNames(t: Table, p: Path) {
    forall i :: 0 <= i < |p.entries| ==> p.entries[i].id in t.rows && t.rows[p.entries[i].id].name == p.entries[i].name
  }

  /** Along the list the positions grow, with whatever gaps. */
  ghost predicate PositionsAscend(t: Table, p: Path)
    requires SameNames(t, p)
  {
    forall i, j :: 0 <= i < j < |p.entries| ==> PositionAt(t, p, i) < PositionAt(t, p, j)
  }

  ghost function PositionAt(t: Table, p: Path, i: nat): nat
    requires i < |p.entries| && p.entries[i].id in t.rows
  {
    t.rows[p.entries[i].id].position
  }

  predicate NamesDistinct(p: Path) {
    forall i, j :: 0 <= i < j < |p.entries| ==> p.entries[i].name != p.entries[j].name
  }

  ghost predicate Refines(t: Table, p: Path) {
    && p.next == t.next
    && (forall id :: id in t.rows ==> id < t.next)
    && SameIds(t, p) && SameNames(t, p) && PositionsAscend(t, p) && NamesDistinct(p)
    && (p.rooted <==> p.entries != [] && PositionAt(t, p, 0) == 0)
    && (p.rooted ==> p.entries[0].name == LIBRARY)
  }

  lemma EntryOf(t: Table, p: Path, id: nat) returns (i: nat)
    requires Refines(t, p) && id in t.rows
    ensures i < |p.entries| && p.entries[i].id == id && p.entries[i].name == t.rows[id].name
    ensures i == IndexOf(p.entries, id)
  {
    i := IndexOf(p.entries, id);
  }

  /** Positions are distinct, and the order of the positions is the order of the list. */
  lemma PositionsAreTheOrder(t: Table, p: Path, a: nat, b: nat)
    requires Refines(t, p) && a in t.rows && b in t.rows
    ensures t.rows[a].position < t.rows[b].position <==> IndexOf(p.entries, a) < IndexOf(p.entries, b)
    ensures t.rows[a].position == t.rows[b].position <==> a == b
  {
    var i := EntryOf(t, p, a);
    var j := EntryOf(t, p, b);
    assert i < j ==> PositionAt(t, p, i) < PositionAt(t, p, j);
    assert j < i ==> PositionAt(t, p, j) < PositionAt(t, p, i);
  }

  lemma NamesAgree(t: Table, p: Path, name: string)
    requires Refines(t, p)
    ensures NameInUse(t, name) <==> HasName(p, name)
  {
    if NameInUse(t, name) {
      var id :| id in t.rows && t.rows[id].name == name;
      var i := EntryOf(t, p, id);
    }
    if HasName(p, name) {
      var i :| 0 <= i < |p.entries| && p.entries[i].name == name;
      assert t.rows[p.entries[i].id].name == name;
    }
  }

  lemma RootsAgree(t: Table, p: Path)
    requires Refines(t, p)
    ensures HasRoot(t) <==> p.rooted
  {
    if HasRoot(t) {
      var id :| id in t.rows && t.rows[id].position == 0;
      var i := EntryOf(t, p, id);
      assert PositionAt(t, p, 0) <= PositionAt(t, p, i);
    }
  }

  lemma TailIsLast(t: Table, p: Path, tail: nat)
    requires Refines(t, p) && IsTail(t, tail)
    ensures p.entries != [] && IndexOf(p.entries, tail) == |p.entries| - 1
  {
    var i := EntryOf(t, p, tail);
    var last := |p.entries| - 1;
    assert p.entries[last].id in t.rows;
    assert i < last ==> PositionAt(t, p, i) < PositionAt(t, p, last);
  }

  // Where the k-th entry was before an entry was put in, or taken out, at i.
  function BeforeInsert(k: nat, i: nat): nat
    requires k != i + 1
  {
    if k <= i then k else k - 1
  }

  function BeforeRemove(k: nat, i: nat): nat {
    if k < i then k else k + 1
  }

  lemma InsertedEntries(p: Path, i: nat, name: string, k: nat)
    requires i < |p.entries| && k <= |p.entries|
    ensures InsertAt(p, i, name).entries[k] ==
            if k == i + 1 then Entry(p.next, name) else p.entries[BeforeInsert(k, i)]
  {
  }

  lemma InsertKeepsId(p: Path, i: nat, name: string, id: nat)
    requires i < |p.entries|
    ensures HasId(InsertAt(p, i, name).entries, id) <==> HasId(p.entries, id) || id == p.next
  {
    var p' := InsertAt(p, i, name);
    if HasId(p.entries, id) {
      var k :| 0 <= k < |p.entries| && p.entries[k].id == id;
      InsertedEntries(p, i, name, if k <= i then k else k + 1);
    }
    InsertedEntries(p, i, name, i + 1);
    if HasId(p'.entries, id) {
      var k :| 0 <= k < |p'.entries| && p'.entries[k].id == id;
      InsertedEntries(p, i, name, k);
    }
  }

  lemma InsertKeepsIds(t: Table, p: Path, prior: nat, name: string, i: nat)
    requires Refines(t, p) && prior in t.rows && i < |p.entries|
    ensures SameIds(InsertAfter(t, prior, name), InsertAt(p, i, name))
  {
    forall id: nat ensures id in InsertAfter(t, prior, name).rows <==> HasId(InsertAt(p, i, name).entries, id) {
      InsertKeepsId(p, i, name, id);
    }
  }

  lemma InsertKeepsRows(t: Table, p: Path, prior: nat, name: string, k: nat)
    requires Refines(t, p) && prior in t.rows && k <= |p.entries|
    ensures var i, t' := IndexOf(p.entries, prior), InsertAfter(t, prior, name);
            var e := InsertAt(p, i, name).entries[k];
            && e.id in t'.rows && t'.rows[e.id].name == e.name
            && t'.rows[e.id].position ==
               if k <= i then PositionAt(t, p, k)
               else if k == i + 1 then t.rows[prior].position + 1
               else PositionAt(t, p, k - 1) + 1
  {
    var i := EntryOf(t, p, prior);
    InsertedEntries(p, i, name, k);
    if k != i + 1 {
      var k0 := BeforeInsert(k, i);
      assert p.entries[k0].id in t.rows;
      assert k0 < i ==> PositionAt(t, p, k0) < PositionAt(t, p, i);
      assert i < k0 ==> PositionAt(t, p, i) < PositionAt(t, p, k0);
    }
  }

  lemma InsertKeepsOrder(t: Table, p: Path, prior: nat, name: string, k: nat, l: nat)
    requires Refines(t, p) && prior in t.rows && k < l <= |p.entries|
    ensures var t', p' := InsertAfter(t, prior, name), InsertAt(p, IndexOf(p.entries, prior), name);
            && p'.entries[k].id in t'.rows && p'.entries[l].id in t'.rows
            && PositionAt(t', p', k) < PositionAt(t', p', l)
  {
    var i := EntryOf(t, p, prior);
    InsertKeepsRows(t, p, prior, name, k);
    InsertKeepsRows(t, p, prior, name, l);
    assert k < i ==> PositionAt(t, p, k) < PositionAt(t, p, i);
    assert k != i + 1 && l != i + 1 ==>
      PositionAt(t, p, BeforeInsert(k, i)) < PositionAt(t, p, BeforeInsert(l, i));
    assert i + 1 < l ==> PositionAt(t, p, i) < PositionAt(t, p, l - 1);
  }

  /** Making room after `prior` and inserting there is inserting after it in the list. */
  lemma InsertRefines(t: Table, p: Path, prior: nat, name: string)
    requires Refines(t, p) && prior in t.rows && !NameInUse(t, name)
    ensures Refines(InsertAfter(t, prior, name), InsertAt(p, IndexOf(p.entries, prior), name))
  {
    var i := EntryOf(t, p, prior);
    var t', p' := InsertAfter(t, prior, name), InsertAt(p, i, name);
    InsertKeepsIds(t, p, prior, name, i);
    forall k | 0 <= k < |p'.entries|
      ensures p'.entries[k].id in t'.rows && t'.rows[p'.entries[k].id].name == p'.entries[k].name
    {
      InsertKeepsRows(t, p, prior, name, k);
    }
    forall k, l | 0 <= k < l < |p'.entries| ensures PositionAt(t', p', k) < PositionAt(t', p', l) {
      InsertKeepsOrder(t, p, prior, name, k, l);
    }
    InsertKeepsNamesDistinct(t, p, i, name);
    InsertKeepsRows(t, p, prior, name, 0);
    InsertedEntries(p, i, name, 0);
  }

  lemma InsertKeepsNamesDistinct(t: Table, p: Path, i: nat, name: string)
    requires Refines(t, p) && i < |p.entries| && !NameInUse(t, name)
    ensures NamesDistinct(InsertAt(p, i, name))
  {
    var p' := InsertAt(p, i, name);
    forall k, l | 0 <= k < l < |p'.entries| ensures p'.entries[k].name != p'.entries[l].name {
      InsertedEntries(p, i, name, k);
      InsertedEntries(p, i, name, l);
      if k == i + 1 {
        assert p.entries[l - 1].id in t.rows;
      } else if l == i + 1 {
        assert p.entries[k].id in t.rows;
      } else {
        assert BeforeInsert(k, i) < BeforeInsert(l, i);
      }
    }
  }

  /** Seeding the Library puts it at the head, in front of every position a gap has left. */
  lemma SeedRefines(t: Table, p: Path)
    requires Refines(t, p) && (HasRoot(t) || !NameInUse(t, LIBRARY))
    ensures Refines(SeedLibrary(t), EnsureLibrary(p))
  {
    RootsAgree(t, p);
    if !HasRoot(t) {
      var t', p' := SeedLibrary(t), EnsureLibrary(p);
      forall k | 0 < k < |p'.entries|
        ensures p'.entries[k] == p.entries[k - 1] && p.entries[k - 1].id in t.rows
        ensures p'.entries[k].name != LIBRARY && PositionAt(t, p, k - 1) > 0
        ensures p'.entries[k].id in t'.rows && PositionAt(t', p', k) == PositionAt(t, p, k - 1)
      {
        assert p.entries[k - 1].id in t.rows;
      }
      SeedKeepsIds(t, p);
      forall k, l | 0 < k < l < |p'.entries|
        ensures PositionAt(t', p', k) < PositionAt(t', p', l) && p'.entries[k].name != p'.entries[l].name
      {
        assert PositionAt(t, p, k - 1) < PositionAt(t, p, l - 1);
      }
    }
  }

  lemma SeedKeepsIds(t: Table, p: Path)
    requires Refines(t, p) && !HasRoot(t) && !p.rooted
    ensures SameIds(SeedLibrary(t), EnsureLibrary(p))
  {
    var t', p' := SeedLibrary(t), EnsureLibrary(p);
    forall id ensures id in t'.rows <==> HasId(p'.entries, id) {
      if HasId(p.entries, id) {
        var k :| 0 <= k < |p.entries| && p.entries[k].id == id;
        assert p'.entries[k + 1].id == id;
      }
      assert p'.entries[0].id == t.next;
      if HasId(p'.entries, id) && id != t.next {
        var k :| 0 <= k < |p'.entries| && p'.entries[k].id == id;
        assert p.entries[k - 1].id == id;
      }
    }
  }

  lemma RemovedEntries(p: Path, i: nat, k: nat)
    requires i < |p.entries| && k < |p.entries| - 1
    ensures |RemoveAt(p, i).entries| == |p.entries| - 1
    ensures RemoveAt(p, i).entries[k] == p.entries[BeforeRemove(k, i)]
  {
  }

  lemma RemoveKeepsRows(t: Table, p: Path, id: nat, k: nat)
    requires Refines(t, p) && id in t.rows && k < |p.entries| - 1
    ensures var i, t' := IndexOf(p.entries, id), t.(rows := t.rows - {id});
            var p' := RemoveAt(p, i);
            && |p'.entries| == |p.entries| - 1
            && p'.entries[k] == p.entries[BeforeRemove(k, i)]
            && p'.entries[k].id in t'.rows && t'.rows[p'.entries[k].id].name == p'.entries[k].name
            && PositionAt(t', p', k) == PositionAt(t, p, BeforeRemove(k, i))
  {
    var i := EntryOf(t, p, id);
    var k0 := BeforeRemove(k, i);
    RemovedEntries(p, i, k);
    assert k0 < i ==> PositionAt(t, p, k0) < PositionAt(t, p, i);
    assert i < k0 ==> PositionAt(t, p, i) < PositionAt(t, p, k0);
  }

  lemma RemovedHasId(p: Path, i: nat, e: nat)
    requires i < |p.entries| && HasId(p.entries, e) && e != p.entries[i].id
    ensures HasId(RemoveAt(p, i).entries, e)
  {
    var k :| 0 <= k < |p.entries| && p.entries[k].id == e;
    RemovedEntries(p, i, if k < i then k else k - 1);
  }

  lemma RemoveKeepsIds(t: Table, p: Path, id: nat)
    requires Refines(t, p) && id in t.rows
    ensures SameIds(t.(rows := t.rows - {id}), RemoveAt(p, IndexOf(p.entries, id)))
  {
    var i := IndexOf(p.entries, id);
    var p' := RemoveAt(p, i);
    forall e: nat ensures e in t.rows - {id} <==> HasId(p'.entries, e) {
      if HasId(p.entries, e) && e != id {
        RemovedHasId(p, i, e);
      }
      if HasId(p'.entries, e) {
        var k :| 0 <= k < |p'.entries| && p'.entries[k].id == e;
        RemoveKeepsRows(t, p, id, k);
      }
    }
  }

  lemma RemoveKeepsNames(t: Table, p: Path, id: nat)
    requires Refines(t, p) && id in t.rows
    ensures SameNames(t.(rows := t.rows - {id}), RemoveAt(p, IndexOf(p.entries, id)))
  {
    forall k | 0 <= k < |p.entries| - 1
      ensures var t', p' := t.(rows := t.rows - {id}), RemoveAt(p, IndexOf(p.entries, id));
              p'.entries[k].id in t'.rows && t'.rows[p'.entries[k].id].name == p'.entries[k].name
    {
      RemoveKeepsRows(t, p, id, k);
    }
  }

  lemma RemoveKeepsNamesDistinct(p: Path, i: nat)
    requires NamesDistinct(p) && i < |p.entries|
    ensures NamesDistinct(RemoveAt(p, i))
  {
    forall k, l | 0 <= k < l < |p.entries| - 1
      ensures RemoveAt(p, i).entries[k].name != RemoveAt(p, i).entries[l].name
    {
      RemovedEntries(p, i, k);
      RemovedEntries(p, i, l);
      assert BeforeRemove(k, i) < BeforeRemove(l, i);
    }
  }

  lemma RemoveKeepsOrder(t: Table, p: Path, id: nat)
    requires Refines(t, p) && id in t.rows
    ensures var t', p' := t.(rows := t.rows - {id}), RemoveAt(p, IndexOf(p.entries, id));
            SameNames(t', p') && PositionsAscend(t', p')
  {
    RemoveKeepsNames(t, p, id);
    var i := IndexOf(p.entries, id);
    var t', p' := t.(rows := t.rows - {id}), RemoveAt(p, i);
    forall k, l | 0 <= k < l < |p'.entries| ensures PositionAt(t', p', k) < PositionAt(t', p', l) {
      RemoveKeepsRows(t, p, id, k);
      RemoveKeepsRows(t, p, id, l);
      assert BeforeRemove(k, i) < BeforeRemove(l, i);
    }
  }

  lemma RemoveKeepsRoot(t: Table, p: Path, id: nat)
    requires Refines(t, p) && id in t.rows
    ensures var t', p' := t.(rows := t.rows - {id}), RemoveAt(p, IndexOf(p.entries, id));
            && (p'.entries != [] ==> p'.entries[0].id in t'.rows)
            && (p'.rooted <==> p'.entries != [] && PositionAt(t', p', 0) == 0)
            && (p'.rooted ==> p'.entries[0].name == LIBRARY)
  {
    if |p.entries| > 1 {
      RemoveKeepsRows(t, p, id, 0);
      assert PositionAt(t, p, 0) < PositionAt(t, p, 1);
    }
  }

  /** Deleting a row, with no renumbering, is removing it from the list. */
  lemma DeleteRefines(t: Table, p: Path, id: nat)
    requires Refines(t, p) && id in t.rows
    ensures Refines(t.(rows := t.rows - {id}), RemoveAt(p, IndexOf(p.entries, id)))
  {
    RemoveKeepsIds(t, p, id);
    RemoveKeepsOrder(t, p, id);
    RemoveKeepsNamesDistinct(p, IndexOf(p.entries, id));
    RemoveKeepsRoot(t, p, id);
  }

  lemma LastIsTail(t: Table, p: Path)
    requires Refines(t, p) && p.entries != []
    ensures IsTail(t, p.entries[|p.entries| - 1].id)
  {
    var last := |p.entries| - 1;
    assert p.entries[last].id in t.rows;
    forall id | id in t.rows ensures t.rows[id].position <= PositionAt(t, p, last) {
      var i := EntryOf(t, p, id);
      assert i < last ==> PositionAt(t, p, i) < PositionAt(t, p, last);
    }
  }

  lemma InsertAtTailRefines(t: Table, p: Path, name: string)
    requires Refines(t, p) && p.entries != []
    ensures Tail(t) in t.rows && (NameInUse(t, name) <==> HasName(p, name))
    ensures !HasName(p, name) ==> Refines(InsertAfter(t, Tail(t), name), InsertAt(p, |p.entries| - 1, name))
  {
    LastIsTail(t, p);
    TailIsLast(t, p, Tail(t));
    NamesAgree(t, p, name);
    if !NameInUse(t, name) {
      InsertRefines(t, p, Tail(t), name);
    }
  }

  lemma AppendRefines(t: Table, p: Path, name: string)
    requires Refines(t, p)
    ensures Refines(TableApply(t, Create(None, name)).0, ListApply(p, Create(None, name)).0)
    ensures TableApply(t, Create(None, name)).1 == ListApply(p, Create(None, name)).1
  {
    RootsAgree(t, p);
    NamesAgree(t, p, LIBRARY);
    if HasRoot(t) || !NameInUse(t, LIBRARY) {
      SeedRefines(t, p);
      InsertAtTailRefines(SeedLibrary(t), EnsureLibrary(p), name);
    }
  }

  /** Every request on the table answers and acts as the same request on the list. */
  lemma RequestRefines(t: Table, p: Path, op: Op)
    requires Refines(t, p)
    ensures Refines(TableApply(t, op).0, ListApply(p, op).0)
    ensures TableApply(t, op).1 == ListApply(p, op).1
  {
    match op
    case Create(Some(prior), name) =>
      NamesAgree(t, p, name);
      if prior in t.rows && !NameInUse(t, name) {
        InsertRefines(t, p, prior, name);
      }
    case Create(None, name) =>
      AppendRefines(t, p, name);
    case Delete(id, inUse) =>
      if id in t.rows && !inUse {
        DeleteRefines(t, p, id);
      }
  }

  ghost function TableRun(t: Table, ops: seq<Op>): (Table, seq<Reply>)
    decreases |ops|
  {
    if ops == [] then (t, []) else
      var (t1, reply) := TableApply(t, ops[0]);
      var (t2, replies) := TableRun(t1, ops[1..]);
      (t2, [reply] + replies)
  }

  function ListRun(p: Path, ops: seq<Op>): (r: (Path, seq<Reply>))
    requires p.rooted ==> p.entries != []
    ensures r.0.rooted ==> r.0.entries != []
    decreases |ops|
  {
    if ops == [] then (p, []) else
      var (p1, reply) := ListApply(p, ops[0]);
      var (p2, replies) := ListRun(p1, ops[1..]);
      (p2, [reply] + replies)
  }

  /** From an empty database, any sequence of creates and deletes leaves the table standing for the
      list that the same sequence makes of the empty list, with the same replies. */
  lemma {:induction false} RunRefines(t: Table, p: Path, ops: seq<Op>)
    requires Refines(t, p)
    ensures Refines(TableRun(t, ops).0, ListRun(p, ops).0)
    ensures TableRun(t, ops).1 == ListRun(p, ops).1
    decreases |ops|
  {
    if ops != [] {
      RequestRefines(t, p, ops[0]);
      RunRefines(TableApply(t, ops[0]).0, ListApply(p, ops[0]).0, ops[1..]);
    }
  }

  lemma EmptyDatabaseRefines(ops: seq<Op>)
    ensures Refines(TableRun(Table(map[], 0), ops).0, ListRun(Path([], false, 0), ops).0)
    ensures TableRun(Table(map[], 0), ops).1 == ListRun(Path([], false, 0), ops).1
  {
    RunRefines(Table(map[], 0), Path([], false, 0), ops);
  }

  /** Both rows are still there, ordered and named as before. */
  predicate SameOrder(rows: map<nat, Env>, rows': map<nat, Env>, a: nat, b: nat)
    requires a in rows && b in rows
  {
    && a in rows' && b in rows' && rows'[a].name == rows[a].name
    && (rows[a].position < rows[b].position <==> rows'[a].position < rows'[b].position)
  }

  lemma InsertAfterKeepsOrder(t: Table, prior: nat, name: string, a: nat, b: nat)
    requires prior in t.rows && a in t.rows && b in t.rows && a != t.next && b != t.next
    ensures SameOrder(t.rows, InsertAfter(t, prior, name).rows, a, b)
  {
  }

  lemma AppendKeepsOrder(t: Table, name: string, a: nat, b: nat)
    requires (forall id :: id in t.rows ==> id < t.next) && a in t.rows && b in t.rows
    ensures SameOrder(t.rows, TableApply(t, Create(None, name)).0.rows, a, b)
  {
    var seeded := SeedLibrary(t);
    if Tail(seeded) in seeded.rows {
      InsertAfterKeepsOrder(seeded, Tail(seeded), name, a, b);
    }
  }

  /** A request never reorders environments that are there before and after it, nor renames them. */
  lemma OrderIsKept(t: Table, p: Path, op: Op, a: nat, b: nat)
    requires Refines(t, p) && a in t.rows && b in t.rows
    requires a in TableApply(t, op).0.rows && b in TableApply(t, op).0.rows
    ensures var t' := TableApply(t, op).0;
            && (t.rows[a].position < t.rows[b].position <==> t'.rows[a].position < t'.rows[b].position)
            && t'.rows[a].name == t.rows[a].name
  {
    match op
    case Create(Some(prior), name) =>
      if prior in t.rows && !NameInUse(t, name) {
        InsertAfterKeepsOrder(t, prior, name, a, b);
      }
    case Create(None, name) => AppendKeepsOrder(t, name, a, b);
    case Delete(_, _) =>
  }

  lemma SeededNames(p: Path, name: string)
    ensures HasName(EnsureLibrary(p), name) <==> HasName(p, name) || (!p.rooted && name == LIBRARY)
  {
    var q := EnsureLibrary(p);
    if !p.rooted {
      assert q.entries[0].name == LIBRARY;
      if HasName(p, name) {
        var i :| 0 <= i < |p.entries| && p.entries[i].name == name;
        assert q.entries[i + 1].name == name;
      }
      if HasName(q, name) && name != LIBRARY {
        var i :| 0 <= i < |q.entries| && q.entries[i].name == name;
        assert p.entries[i - 1].name == name;
      }
    }
  }

  /** Creating without a prior succeeds exactly when the name is free, is not the Library's own
      while the root has to be seeded, and no other environment holds the Library's name then. */
  lemma AppendSucceedsIff(t: Table, p: Path, name: string)
    requires Refines(t, p)
    ensures TableApply(t, Create(None, name)).1.Created? <==>
              !NameInUse(t, name) && (HasRoot(t) || (name != LIBRARY && !NameInUse(t, LIBRARY)))
  {
    AppendRefines(t, p, name);
    RootsAgree(t, p);
    NamesAgree(t, p, name);
    NamesAgree(t, p, LIBRARY);
    SeededNames(p, name);
  }

  /** That refusal is reachable: the Library is deleted, its name is given to another environment,
      and appending is no longer possible. */
  lemma LibraryNameCanBlockAppending()
    ensures var p := ListRun(Path([], false, 0), [Create(None, "dev"), Delete(0, false), Create(Some(1), LIBRARY)]).0;
            forall name :: ListApply(p, Create(None, name)).1 == IntegrityError
  {
    var p0 := Path([], false, 0);
    var p1 := Path([Entry(0, LIBRARY), Entry(1, "dev")], true, 2);
    var p2 := Path([Entry(1, "dev")], false, 2);
    var p3 := Path([Entry(1, "dev"), Entry(2, LIBRARY)], false, 3);
    var ops := [Create(None, "dev"), Delete(0, false), Create(Some(1), LIBRARY)];
    var q := EnsureLibrary(p0);
    assert q.entries == [Entry(0, LIBRARY)];
    assert !HasName(q, "dev");
    assert ListApply(p0, ops[0]).0 == p1;
    assert p1.entries[0].id == 0;
    assert ListApply(p1, ops[1]).0 == p2;
    assert p2.entries[0].id == 1 && HasId(p2.entries, 1) && !HasName(p2, LIBRARY);
    assert ListApply(p2, ops[2]).0 == p3;
    assert ListRun(p2, ops[2..]).0 == ListRun(p3, ops[2..][1..]).0 == p3;
    assert ListRun(p1, ops[1..]).0 == ListRun(p2, ops[1..][1..]).0;
    assert ops[1..][1..] == ops[2..];
    assert p3.entries[1].name == LIBRARY;
  }

  // ----- the endpoints ------------------------------------------------------------------------------

  class EnvironmentTable {
    var rows: map<nat, Env>
    var next: nat
    ghost var path: Path

    ghost predicate Valid()
      reads this
    {
      Refines(Table(rows, next), path)
    }

    constructor ()
      ensures Valid() && path == Path([], false, 0)
    {
      rows, next, path := map[], 0, Path([], false, 0);
    }

    method IsNameTaken(name: string) returns (taken: bool)
      requires Valid()
      ensures taken <==> HasName(path, name)
    {
      NamesAgree(Table(rows, next), path, name);
      taken := exists id :: id in rows && rows[id].name == name;
    }

    // ORDER BY position DESC LIMIT 1
    method FindTail() returns (tail: nat)
      requires rows != map[]
      ensures IsTail(Table(rows, next), tail)
    {
      tail :| tail in rows;
      var left := rows.Keys - {tail};
      while left != {}
        invariant left <= rows.Keys && tail in rows
        invariant forall id :: id in rows && id !in left ==> rows[id].position <= rows[tail].position
        decreases left
      {
        var id :| id in left;
        if rows[id].position > rows[tail].position {
          tail := id;
        }
        left := left - {id};
      }
    }

    // The shift-and-insert that both ways of creating an environment end in.
    method InsertRow(prior: nat, name: string) returns (id: nat)
      requires Valid() && prior in rows && !HasName(path, name)
      modifies this
      ensures Valid() && id == old(next) == old(path).next
      ensures path == InsertAt(old(path), IndexOf(old(path).entries, prior), name)
    {
      NamesAgree(Table(rows, next), path, name);
      InsertRefines(Table(rows, next), path, prior, name);
      path := InsertAt(path, IndexOf(path.entries, prior), name);
      var newPosition := rows[prior].position + 1;
      rows := map e | e in rows ::
                if rows[e].position >= newPosition then rows[e].(position := rows[e].position + 1) else rows[e];
      id := next;
      rows := rows[id := Env(name, newPosition)];
      next := next + 1;
    }

    // _get_or_create_library
    method SeedRoot() returns (ok: bool)
      requires Valid()
      modifies this
      ensures Valid()
      ensures ok <==> old(path).rooted || !HasName(old(path), LIBRARY)
      ensures path == if ok then EnsureLibrary(old(path)) else old(path)
      ensures path.entries == [] ==> !ok
    {
      RootsAgree(Table(rows, next), path);
      NamesAgree(Table(rows, next), path, LIBRARY);
      var rooted := exists id :: id in rows && rows[id].position == 0;
      if !rooted {
        var clash := IsNameTaken(LIBRARY);
        if clash {
          return false;
        }
        SeedRefines(Table(rows, next), path);
        rows := rows[next := Env(LIBRARY, 0)];
        next := next + 1;
        path := EnsureLibrary(path);
      }
      return true;
    }

    // The id of the last environment of the path.
    method LastId() returns (tail: nat)
      requires Valid() && path.entries != []
      ensures tail in rows && HasId(path.entries, tail) && IndexOf(path.entries, tail) == |path.entries| - 1
    {
      LastIsTail(Table(rows, next), path);
      tail := FindTail();
      TailIsLast(Table(rows, next), path, tail);
    }

    method CreateAfter(prior: nat, name: string) returns (reply: Reply)
      requires Valid()
      modifies this
      ensures Valid()
      ensures path == ListApply(old(path), Create(Some(prior), name)).0
      ensures reply == ListApply(old(path), Create(Some(prior), name)).1
    {
      if prior !in rows {
        return NotFound;
      }
      var taken := IsNameTaken(name);
      if taken {
        return NameTaken;
      }
      var id := InsertRow(prior, name);
      return Created(id);
    }

    // Nothing is written when the name is taken.
    method InsertLast(name: string) returns (id: Option<nat>)
      requires Valid() && path.entries != []
      modifies this
      ensures Valid()
      ensures HasName(old(path), name) ==> id.None? && rows == old(rows) && next == old(next) && path == old(path)
      ensures !HasName(old(path), name) ==> id == Some(old(path).next)
      ensures !HasName(old(path), name) ==> path == InsertAt(old(path), |old(path).entries| - 1, name)
    {
      var tail := LastId();
      var taken := IsNameTaken(name);
      if taken {
        return None;
      }
      var newId := InsertRow(tail, name);
      return Some(newId);
    }

    method CreateLast(name: string) returns (reply: Reply)
      requires Valid()
      modifies this
      ensures Valid()
      ensures path == ListApply(old(path), Create(None, name)).0
      ensures reply == ListApply(old(path), Create(None, name)).1
    {
      var before, nextBefore := rows, next;
      var ok := SeedRoot();
      if !ok {
        return IntegrityError;
      }
      var id := InsertLast(name);
      if id.None? {
        rows, next, path := before, nextBefore, old(path);   // the session is closed without a commit
        return NameTaken;
      }
      return Created(id.value);
    }

    method CreateEnvironment(prior: Option<nat>, name: string) returns (reply: Reply)
      requires Valid()
      modifies this
      ensures Valid()
      ensures path == ListApply(old(path), Create(prior, name)).0
      ensures reply == ListApply(old(path), Create(prior, name)).1
    {
      if prior.Some? {
        reply := CreateAfter(prior.value, name);
      } else {
        reply := CreateLast(name);
      }
    }

    method DeleteEnvironment(id: nat, inUse: bool) returns (reply: Reply)
      requires Valid()
      modifies this
      ensures Valid()
      ensures path == ListApply(old(path), Delete(id, inUse)).0
      ensures reply == ListApply(old(path), Delete(id, inUse)).1
    {
      RequestRefines(Table(rows, next), path, Delete(id, inUse));
      if id !in rows {
        return NotFound;
      }
      if inUse {
        return StillAssigned;
      }
      path := RemoveAt(path, IndexOf(path.entries, id));
      rows := rows - {id};
      return Deleted;
    }
  }
}
