/** What a unit of work keeps track of, and how it stays consistent (unitofwork/unitofwork.go:144-296, 601-680). */
module Tracking {
  import opened Base
  import opened DependencyGraph
  import opened Dependency
  import opened Operations
  import opened Schedule

  type Table = map<TypeName, seq<Entity>>

  function Listed(m: Table, t: TypeName): seq<Entity> {
    if t in m then m[t] else []
  }

  predicate HasId(es: seq<Entity>, id: nat) {
    exists e :: e in es && e.id == id
  }

  /** Some entity of that type and id is listed. */
  predicate Holds(m: Table, t: TypeName, id: nat) {
    HasId(Listed(m, t), id)
  }

  predicate Is(e: Entity, t: TypeName, id: nat) {
    e.etype == t && e.id == id
  }

  /** Some operation of that kind is queued for that type and id. */
  predicate Queued(ops: seq<Operation>, kind: Kind, t: TypeName, id: nat) {
    exists i :: 0 <= i < |ops| && ops[i].Single? && ops[i].kind == kind && Is(ops[i].entity, t, id)
  }

  // ------------------------------------------------------------------------ invariant

  ghost predicate TypesOk(m: Table) {
    forall t, e :: t in m && e in m[t] ==> e.etype == t
  }

  ghost predicate DistinctIds(m: Table) {
    forall t, i, j :: t in m && 0 <= i < j < |m[t]| ==> m[t][i].id != m[t][j].id
  }

  ghost predicate Apart(a: Table, b: Table) {
    forall t, id :: !(Holds(a, t, id) && Holds(b, t, id))
  }

  /** Queued operations are single, and no two are for the same identity. */
  ghost predicate OncePerIdentity(ops: seq<Operation>) {
    && AllSingle(ops)
    && forall i, j :: 0 <= i < j < |ops| ==> !Is(ops[i].entity, ops[j].entity.etype, ops[j].entity.id)
  }

  /** The operations of one kind are those for the identities in the table, with an object listed there. */
  ghost predicate Match(ops: seq<Operation>, kind: Kind, m: Table) {
    && (forall t, id :: Queued(ops, kind, t, id) <==> Holds(m, t, id))
    && (forall op :: op in ops && op.Single? && op.kind == kind ==> op.entity in Listed(m, op.entity.etype))
  }

  ghost predicate Consistent(created: Table, dirty: Table, removed: Table, ops: seq<Operation>) {
    && TypesOk(created) && TypesOk(dirty) && TypesOk(removed)
    && DistinctIds(created) && DistinctIds(dirty)
    && Apart(created, dirty) && Apart(created, removed) && Apart(dirty, removed)
    && OncePerIdentity(ops)
    && Match(ops, Insert, created) && Match(ops, Update, dirty) && Match(ops, Delete, removed)
  }

  // --------------------------------------------------------------------------- tables

  function Add(m: Table, e: Entity): Table {
    m[e.etype := Listed(m, e.etype) + [e]]
  }

  lemma AddHolds(m: Table, e: Entity, t: TypeName, id: nat)
    ensures Holds(Add(m, e), t, id) <==> Holds(m, t, id) || Is(e, t, id)
  {
    if t == e.etype {
      assert forall x :: x in Listed(m, t) + [e] <==> x in Listed(m, t) || x == e;
    }
  }

  /** An entity joins the end of its type's list; no other list changes. */
  lemma AddLists(m: Table, e: Entity, t: TypeName)
    ensures Listed(Add(m, e), t) == Listed(m, t) + if t == e.etype then [e] else []
  {
  }

  lemma AddShape(m: Table, e: Entity)
    requires TypesOk(m)
    ensures TypesOk(Add(m, e))
    ensures DistinctIds(m) && !Holds(m, e.etype, e.id) ==> DistinctIds(Add(m, e))
  {
    var was := Listed(m, e.etype);
    assert forall i :: 0 <= i < |was| ==> was[i] in was;
  }

  /** Take the k-th entity of e's type out. */
  function Remove(m: Table, t: TypeName, k: nat): Table
    requires t in m && k < |m[t]|
  {
    m[t := m[t][..k] + m[t][k + 1..]]
  }

  /** An entity leaves its type's list, putting it back gives the list again, and no other list changes. */
  lemma RemoveLists(m: Table, t0: TypeName, k: nat, t: TypeName)
    requires t0 in m && k < |m[t0]|
    ensures t != t0 ==> Listed(Remove(m, t0, k), t) == Listed(m, t)
    ensures var left := Listed(Remove(m, t0, k), t0); |left| == |m[t0]| - 1 && m[t0] == left[..k] + [m[t0][k]] + left[k..]
  {
  }

  lemma RemoveHolds(m: Table, t0: TypeName, k: nat, t: TypeName, id: nat)
    requires t0 in m && k < |m[t0]| && DistinctIds(m)
    ensures Holds(Remove(m, t0, k), t, id) <==> Holds(m, t, id) && !(t == t0 && id == m[t0][k].id)
  {
    if t == t0 {
      CutIn(m[t], k);
    }
  }

  /** Where ids are distinct, cutting one entity out loses its id and no other. */
  lemma CutIn(es: seq<Entity>, k: nat)
    requires k < |es| && forall i, j :: 0 <= i < j < |es| ==> es[i].id != es[j].id
    ensures forall e :: e in es[..k] + es[k + 1..] <==> e in es && e.id != es[k].id
  {
    var front, back := es[..k], es[k + 1..];
    assert es == front + [es[k]] + back;
    assert forall e :: e in front ==> e.id != es[k].id;
    assert forall e :: e in back ==> e.id != es[k].id;
  }

  lemma RemoveShape(m: Table, t0: TypeName, k: nat)
    requires TypesOk(m) && DistinctIds(m) && t0 in m && k < |m[t0]|
    ensures TypesOk(Remove(m, t0, k)) && DistinctIds(Remove(m, t0, k))
    ensures forall e :: e in m[t0] && e.id != m[t0][k].id ==> e in Remove(m, t0, k)[t0]
  {
    CutIn(m[t0], k);
  }

  // ----------------------------------------------------------------------- operations

  /** Leave out every operation for e's identity. */
  function Without(ops: seq<Operation>, e: Entity): seq<Operation> {
    if ops == [] then [] else
    var op := ops[|ops| - 1];
    Without(ops[..|ops| - 1], e) + if op.Single? && Is(op.entity, e.etype, e.id) then [] else [op]
  }

  lemma WithoutOne(op: Operation, e: Entity)
    ensures Without([op], e) == if op.Single? && op.entity.etype == e.etype && op.entity.id == e.id then [] else [op]
  {
    assert [op][..0] == [];
  }

  /** Each operation is kept or left out on its own, and those kept stay in order. */
  lemma {:induction false} WithoutAppends(ops: seq<Operation>, more: seq<Operation>, e: Entity)
    ensures Without(ops + more, e) == Without(ops, e) + Without(more, e)
  {
    if more == [] {
      assert ops + more == ops;
    } else {
      var n := |more| - 1;
      WithoutAppends(ops, more[..n], e);
      assert (ops + more)[..|ops| + n] == ops + more[..n];
    }
  }

  lemma {:induction false} WithoutIn(ops: seq<Operation>, e: Entity)
    ensures forall op :: op in Without(ops, e) <==> op in ops && !(op.Single? && Is(op.entity, e.etype, e.id))
  {
    if ops != [] {
      WithoutIn(ops[..|ops| - 1], e);
      assert ops == ops[..|ops| - 1] + [ops[|ops| - 1]];
    }
  }

  lemma {:induction false} WithoutOnce(ops: seq<Operation>, e: Entity)
    requires OncePerIdentity(ops)
    ensures OncePerIdentity(Without(ops, e))
  {
    if ops != [] {
      var n := |ops| - 1;
      WithoutOnce(ops[..n], e);
      WithoutIn(ops[..n], e);
      var front := Without(ops[..n], e);
      forall i | 0 <= i < |front| ensures !Is(front[i].entity, ops[n].entity.etype, ops[n].entity.id) {
        assert front[i] in ops[..n];
        var k :| 0 <= k < n && ops[k] == front[i];
      }
    }
  }

  lemma QueuedBy(ops: seq<Operation>, kind: Kind, t: TypeName, id: nat)
    ensures Queued(ops, kind, t, id) <==> exists op :: op in ops && op.Single? && op.kind == kind && Is(op.entity, t, id)
  {
    if op :| op in ops && op.Single? && op.kind == kind && Is(op.entity, t, id) {
      var i :| 0 <= i < |ops| && ops[i] == op;
    }
    if i :| 0 <= i < |ops| && ops[i].Single? && ops[i].kind == kind && Is(ops[i].entity, t, id) {
      assert ops[i] in ops;
    }
  }

  lemma WithoutQueued(ops: seq<Operation>, e: Entity, kind: Kind, t: TypeName, id: nat)
    ensures Queued(Without(ops, e), kind, t, id) <==> Queued(ops, kind, t, id) && !Is(e, t, id)
  {
    WithoutIn(ops, e);
    QueuedBy(ops, kind, t, id);
    QueuedBy(Without(ops, e), kind, t, id);
  }

  lemma AppendQueued(ops: seq<Operation>, op: Operation, kind: Kind, t: TypeName, id: nat)
    requires op.Single?
    ensures Queued(ops + [op], kind, t, id) <==> Queued(ops, kind, t, id) || (op.kind == kind && Is(op.entity, t, id))
  {
    QueuedBy(ops, kind, t, id);
    QueuedBy(ops + [op], kind, t, id);
    assert op in ops + [op];
  }

  // ------------------------------------------------------------------------- matching

  ghost predicate Unlisted(m: Table, e: Entity) {
    !Holds(m, e.etype, e.id)
  }

  lemma MatchGains(ops: seq<Operation>, kind: Kind, m: Table, e: Entity)
    requires Match(ops, kind, m)
    ensures Match(ops + [Single(kind, e)], kind, Add(m, e))
  {
    forall t, id ensures Queued(ops + [Single(kind, e)], kind, t, id) <==> Holds(Add(m, e), t, id) {
      AppendQueued(ops, Single(kind, e), kind, t, id);
      AddHolds(m, e, t, id);
    }
  }

  lemma MatchIgnores(ops: seq<Operation>, kind: Kind, m: Table, op: Operation)
    requires Match(ops, kind, m) && op.Single? && op.kind != kind
    ensures Match(ops + [op], kind, m)
  {
    forall t, id ensures Queued(ops + [op], kind, t, id) <==> Holds(m, t, id) {
      AppendQueued(ops, op, kind, t, id);
    }
  }

  /** Dropping the operations of an unlisted identity changes nothing. */
  lemma MatchUntouched(ops: seq<Operation>, kind: Kind, m: Table, e: Entity)
    requires Match(ops, kind, m) && Unlisted(m, e)
    ensures Match(Without(ops, e), kind, m)
  {
    WithoutIn(ops, e);
    forall t, id ensures Queued(Without(ops, e), kind, t, id) <==> Holds(m, t, id) {
      WithoutQueued(ops, e, kind, t, id);
    }
  }

  lemma MatchLoses(ops: seq<Operation>, kind: Kind, m: Table, e: Entity, k: nat)
    requires Match(ops, kind, m) && TypesOk(m) && DistinctIds(m)
    requires e.etype in m && k < |m[e.etype]| && m[e.etype][k].id == e.id
    ensures Match(Without(ops, e), kind, Remove(m, e.etype, k))
  {
    WithoutIn(ops, e);
    RemoveShape(m, e.etype, k);
    forall t, id ensures Queued(Without(ops, e), kind, t, id) <==> Holds(Remove(m, e.etype, k), t, id) {
      WithoutQueued(ops, e, kind, t, id);
      RemoveHolds(m, e.etype, k, t, id);
    }
  }

  /** Deleting again: the old delete goes, the new one comes, and the list grows. */
  lemma MatchRenews(ops: seq<Operation>, m: Table, e: Entity)
    requires Match(ops, Delete, m)
    ensures Match(Without(ops, e) + [Single(Delete, e)], Delete, Add(m, e))
  {
    WithoutIn(ops, e);
    forall t, id ensures Queued(Without(ops, e) + [Single(Delete, e)], Delete, t, id) <==> Holds(Add(m, e), t, id) {
      AppendQueued(Without(ops, e), Single(Delete, e), Delete, t, id);
      WithoutQueued(ops, e, Delete, t, id);
      AddHolds(m, e, t, id);
    }
  }

  lemma ApartAdd(a: Table, b: Table, e: Entity)
    requires Apart(a, b) && Unlisted(b, e)
    ensures Apart(Add(a, e), b) && Apart(b, Add(a, e))
  {
    forall t, id ensures !(Holds(Add(a, e), t, id) && Holds(b, t, id)) {
      AddHolds(a, e, t, id);
    }
  }

  lemma ApartRemove(a: Table, b: Table, t0: TypeName, k: nat)
    requires Apart(a, b) && t0 in a && k < |a[t0]| && DistinctIds(a)
    ensures Apart(Remove(a, t0, k), b) && Apart(b, Remove(a, t0, k))
  {
    forall t, id ensures !(Holds(Remove(a, t0, k), t, id) && Holds(b, t, id)) {
      RemoveHolds(a, t0, k, t, id);
    }
  }

  lemma OnceAppend(ops: seq<Operation>, op: Operation)
    requires OncePerIdentity(ops) && op.Single?
    requires forall o :: o in ops ==> !Is(o.entity, op.entity.etype, op.entity.id)
    ensures OncePerIdentity(ops + [op])
  {
    assert forall i :: 0 <= i < |ops| ==> ops[i] in ops;
  }

  /** An identity in no table has no operation either. */
  lemma UnlistedMeansUnqueued(created: Table, dirty: Table, removed: Table, ops: seq<Operation>, e: Entity)
    requires Match(ops, Insert, created) && Match(ops, Update, dirty) && Match(ops, Delete, removed)
    requires AllSingle(ops) && Unlisted(created, e) && Unlisted(dirty, e) && Unlisted(removed, e)
    ensures forall o :: o in ops ==> !Is(o.entity, e.etype, e.id)
  {
    forall i | 0 <= i < |ops| ensures !Is(ops[i].entity, e.etype, e.id) {
      assert !Queued(ops, Insert, e.etype, e.id) && !Queued(ops, Update, e.etype, e.id) && !Queued(ops, Delete, e.etype, e.id);
    }
  }

  // ------------------------------------------------------------------ the four changes

  lemma CreateKeeps(created: Table, dirty: Table, removed: Table, ops: seq<Operation>, e: Entity)
    requires Consistent(created, dirty, removed, ops)
    requires Unlisted(created, e) && Unlisted(dirty, e) && Unlisted(removed, e)
    ensures Consistent(Add(created, e), dirty, removed, ops + [Single(Insert, e)])
  {
    var op := Single(Insert, e);
    UnlistedMeansUnqueued(created, dirty, removed, ops, e);
    OnceAppend(ops, op);
    AddShape(created, e);
    ApartAdd(created, dirty, e);
    ApartAdd(created, removed, e);
    MatchGains(ops, Insert, created, e);
    MatchIgnores(ops, Update, dirty, op);
    MatchIgnores(ops, Delete, removed, op);
  }

  lemma UpdateKeeps(created: Table, dirty: Table, removed: Table, ops: seq<Operation>, e: Entity)
    requires Consistent(created, dirty, removed, ops)
    requires Unlisted(created, e) && Unlisted(dirty, e) && Unlisted(removed, e)
    ensures Consistent(created, Add(dirty, e), removed, ops + [Single(Update, e)])
  {
    var op := Single(Update, e);
    UnlistedMeansUnqueued(created, dirty, removed, ops, e);
    OnceAppend(ops, op);
    AddShape(dirty, e);
    ApartAdd(dirty, created, e);
    ApartAdd(dirty, removed, e);
    MatchIgnores(ops, Insert, created, op);
    MatchGains(ops, Update, dirty, e);
    MatchIgnores(ops, Delete, removed, op);
  }

  /** Deleting what was only created: as if it had never been. */
  lemma DeleteNewKeeps(created: Table, dirty: Table, removed: Table, ops: seq<Operation>, e: Entity, k: nat)
    requires Consistent(created, dirty, removed, ops)
    requires e.etype in created && k < |created[e.etype]| && created[e.etype][k].id == e.id
    ensures Consistent(Remove(created, e.etype, k), dirty, removed, Without(ops, e))
  {
    assert created[e.etype][k] in Listed(created, e.etype);
    WithoutOnce(ops, e);
    RemoveShape(created, e.etype, k);
    ApartRemove(created, dirty, e.etype, k);
    ApartRemove(created, removed, e.etype, k);
    MatchLoses(ops, Insert, created, e, k);
    MatchUntouched(ops, Update, dirty, e);
    MatchUntouched(ops, Delete, removed, e);
  }

  /** The dirty table once e is out of it: the first entity of that id is dropped. */
  ghost predicate Dropped(m: Table, e: Entity, now: Table) {
    if Unlisted(m, e) then now == m
    else exists k :: e.etype in m && 0 <= k < |m[e.etype]| && m[e.etype][k].id == e.id && now == Remove(m, e.etype, k)
  }

  lemma DropFacts(ops: seq<Operation>, kind: Kind, m: Table, e: Entity, now: Table)
    requires Match(ops, kind, m) && TypesOk(m) && DistinctIds(m) && Dropped(m, e, now)
    ensures Match(Without(ops, e), kind, now) && TypesOk(now) && DistinctIds(now) && Unlisted(now, e)
  {
    if Unlisted(m, e) {
      MatchUntouched(ops, kind, m, e);
    } else {
      var k :| e.etype in m && 0 <= k < |m[e.etype]| && m[e.etype][k].id == e.id && now == Remove(m, e.etype, k);
      MatchLoses(ops, kind, m, e, k);
      RemoveShape(m, e.etype, k);
      RemoveHolds(m, e.etype, k, e.etype, e.id);
    }
  }

  lemma DropApart(m: Table, e: Entity, now: Table, b: Table)
    requires DistinctIds(m) && Dropped(m, e, now) && Apart(m, b)
    ensures Apart(now, b) && Apart(b, now)
  {
    if !Unlisted(m, e) {
      var k :| e.etype in m && 0 <= k < |m[e.etype]| && m[e.etype][k].id == e.id && now == Remove(m, e.etype, k);
      ApartRemove(m, b, e.etype, k);
    }
  }

  lemma DeleteKeeps(created: Table, dirty: Table, removed: Table, ops: seq<Operation>, e: Entity, now: Table)
    requires Consistent(created, dirty, removed, ops) && Unlisted(created, e) && Dropped(dirty, e, now)
    ensures Consistent(created, now, Add(removed, e), Without(ops, e) + [Single(Delete, e)])
  {
    var op := Single(Delete, e);
    WithoutOnce(ops, e);
    WithoutIn(ops, e);
    OnceAppend(Without(ops, e), op);
    DropFacts(ops, Update, dirty, e, now);
    DropApart(dirty, e, now, created);
    DropApart(dirty, e, now, removed);
    AddShape(removed, e);
    ApartAdd(removed, created, e);
    ApartAdd(removed, now, e);
    MatchUntouched(ops, Insert, created, e);
    MatchIgnores(Without(ops, e), Insert, created, op);
    MatchIgnores(Without(ops, e), Update, now, op);
    MatchRenews(ops, removed, e);
  }
}
