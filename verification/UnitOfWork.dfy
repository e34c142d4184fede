/** The unit of work (unitofwork/unitofwork.go). */
module UnitOfWork {
  import opened Base
  import opened DependencyGraph
  import opened KahnOrder
  import opened Dependency
  import opened Operations
  import opened Schedule
  import opened Tracking

  datatype Error =
    | Finished | NilEntity | AlreadyDirty | AlreadyRemoved | LimitExceeded
    | AlreadyCommitted | AlreadyRolledBack | Circular | OperationFailed(index: nat)

  // ------------------------------------------------------------------------- counting

  ghost function Size(m: Table, keys: set<TypeName>): nat
    requires keys <= m.Keys
  {
    if keys == {} then 0 else
    var k :| k in keys;
    |m[k]| + Size(m, keys - {k})
  }

  lemma {:induction false} SizeWithout(m: Table, keys: set<TypeName>, k: TypeName)
    requires keys <= m.Keys && k in keys
    ensures Size(m, keys) == |m[k]| + Size(m, keys - {k})
    decreases |keys|
  {
    var first :| first in keys && Size(m, keys) == |m[first]| + Size(m, keys - {first});
    if first != k {
      SizeWithout(m, keys - {first}, k);
      SizeWithout(m, keys - {k}, first);
      assert keys - {first} - {k} == keys - {k} - {first};
    }
  }

  method GetEntityCountByType(m: Table) returns (n: nat)
    ensures n == Size(m, m.Keys)
  {
    var keys := SomeOrder(m);
    n := 0;
    ghost var rest := m.Keys;
    for i := 0 to |keys|
      invariant rest == m.Keys - Elements(keys[..i]) && n + Size(m, rest) == Size(m, m.Keys)
    {
      assert keys[..i + 1] == keys[..i] + [keys[i]] && keys[i] in Elements(keys);
      ElementsAppend(keys[..i], [keys[i]]);
      assert Elements([keys[i]]) == {keys[i]};
      SizeWithout(m, rest, keys[i]);
      n := n + |m[keys[i]]|;
      rest := rest - {keys[i]};
    }
    assert keys[..|keys|] == keys;
    assert rest == {};
  }

  // -------------------------------------------------------------------- list helpers

  method ContainsEntity(m: Table, e: Entity) returns (found: bool)
    ensures found == Holds(m, e.etype, e.id)
  {
    if e.etype !in m {
      return false;
    }
    var es := m[e.etype];
    for i := 0 to |es|
      invariant forall k :: 0 <= k < i ==> es[k].id != e.id
    {
      if es[i].id == e.id {
        assert es[i] in Listed(m, e.etype);
        return true;
      }
    }
    return false;
  }

  /** Take out the first entity with e's id. */
  method RemoveFromEntityList(m: Table, e: Entity) returns (found: bool, now: Table)
    ensures found == Holds(m, e.etype, e.id)
    ensures Dropped(m, e, now)
  {
    if e.etype !in m {
      return false, m;
    }
    var es := m[e.etype];
    for i := 0 to |es|
      invariant forall k :: 0 <= k < i ==> es[k].id != e.id
    {
      if es[i].id == e.id {
        assert es[i] in Listed(m, e.etype);
        return true, Remove(m, e.etype, i);
      }
    }
    return false, m;
  }

  method RemoveOperationByEntity(ops: seq<Operation>, e: Entity) returns (r: seq<Operation>)
    ensures r == Without(ops, e)
  {
    r := [];
    for i := 0 to |ops|
      invariant r == Without(ops[..i], e)
    {
      assert ops[..i + 1][..i] == ops[..i];
      var op := ops[i];
      if !SameIdentity(op, Single(Insert, e)) && !SameIdentity(op, Single(Update, e)) && !SameIdentity(op, Single(Delete, e)) {
        r := r + [op];
      }
    }
    assert ops[..|ops|] == ops;
  }

  // -------------------------------------------------------------------------- planning

  /** No insert is ever the same identity as a delete, so nothing is cancelled. */
  method RemoveInvalidOperations(ops: seq<Operation>) returns (valid: seq<Operation>)
    ensures valid == ops
  {
    var cancelled: set<int> := {};
    for i := 0 to |ops|
      invariant cancelled == {}
    {
      if i !in cancelled {
        for j := 0 to |ops|
          invariant cancelled == {}
        {
          if i < j && j !in cancelled {
            if ops[i].kind == Insert && ops[i].Single? && ops[j].kind == Delete && ops[j].Single? && SameIdentity(ops[i], ops[j]) {
              cancelled := cancelled + {i, j};
              break;
            }
          }
        }
      }
    }
    valid := [];
    for i := 0 to |ops|
      invariant valid == ops[..i]
    {
      if i !in cancelled {
        valid := valid + [ops[i]];
      }
    }
  }

  /** The types for which operations of one kind are queued. */
  ghost function TypesQueued(ops: seq<Operation>, kind: Kind): set<TypeName>
    requires NonEmpty(ops)
  {
    set c | c in Classes(ops) && c.kind == kind :: c.etype
  }

  lemma HeadTypesOfKind(ops: seq<Operation>, kind: Kind)
    requires NonEmpty(ops) && NonEmpty(OfKind(ops, kind))
    ensures HeadTypes(OfKind(ops, kind)) == TypesQueued(ops, kind)
  {
    OfKindIn(ops, kind);
    var some := OfKind(ops, kind);
    forall t | t in HeadTypes(some) ensures t in TypesQueued(ops, kind) {
      var i :| 0 <= i < |some| && Types(Heads(some))[i] == t;
      assert some[i] in ops;
      var k :| 0 <= k < |ops| && ops[k] == some[i];
      assert Classes(ops)[k] == Class(kind, t);
    }
    forall t | t in TypesQueued(ops, kind) ensures t in HeadTypes(some) {
      assert Class(kind, t) in Classes(ops);
      var k :| 0 <= k < |ops| && Classes(ops)[k] == Class(kind, t);
      assert ops[k] in some;
      var i :| 0 <= i < |some| && some[i] == ops[k];
      assert Types(Heads(some))[i] == t;
    }
  }

  lemma SinglesAreFit(ops: seq<Operation>)
    requires OncePerIdentity(ops)
    ensures NonEmpty(ops) && DistinctPerKind(ops) && Uniform(ops)
  {
    assert forall i :: 0 <= i < |ops| ==> GetEntity(ops[i]) == Some(ops[i].entity);
    forall op, e | op in ops && e in Payload(op) ensures e.etype == Head(op).etype {
      assert op.Single?;
    }
  }

  lemma MergedAreFit(ops: seq<Operation>, merged: seq<Operation>)
    requires Merged(ops, merged)
    ensures NonEmpty(merged) && DistinctPerKind(merged) && Uniform(merged)
    ensures forall kind :: TypesQueued(merged, kind) == TypesQueued(ops, kind)
  {
    forall i, j | 0 <= i < j < |merged|
      ensures Head(merged[i]).etype != Head(merged[j]).etype || merged[i].kind != merged[j].kind
    {
      assert Classes(merged)[i] != Classes(merged)[j];
    }
    assert forall c :: c in Classes(merged) <==> c in Elements(Classes(merged));
    assert forall c :: c in Classes(ops) <==> c in Elements(Classes(ops));
    forall op, e | op in merged && e in Payload(op) ensures e.etype == Head(op).etype {
      GatheredType(ops, ClassOf(op));
      CombinedPayload(op.kind, Gathered(ops, ClassOf(op)));
    }
  }

  lemma MatchDistinct(ops: seq<Operation>)
    requires OncePerIdentity(ops)
    ensures NoDup(Writes(ops))
    ensures forall w :: w in Writes(ops) <==> Single(w.kind, w.entity) in ops
  {
    SinglesWrite(ops);
    assert forall i :: 0 <= i < |ops| ==> Writes(ops)[i] == Write(ops[i].kind, ops[i].entity);
    forall w ensures w in Writes(ops) <==> Single(w.kind, w.entity) in ops {
      if w in Writes(ops) {
        var i :| 0 <= i < |ops| && Writes(ops)[i] == w;
        assert ops[i] == Single(w.kind, w.entity);
      }
      if Single(w.kind, w.entity) in ops {
        var i :| 0 <= i < |ops| && ops[i] == Single(w.kind, w.entity);
        assert Writes(ops)[i] == w;
      }
    }
  }

  lemma {:induction false} SinglesWrite(ops: seq<Operation>)
    requires AllSingle(ops)
    ensures |Writes(ops)| == |ops| && forall i :: 0 <= i < |ops| ==> Writes(ops)[i] == Write(ops[i].kind, ops[i].entity)
  {
    if ops != [] {
      SinglesWrite(ops[..|ops| - 1]);
    }
  }

  /** Every tracked identity is written exactly once, in its own way, and nothing else is. */
  ghost predicate EachIdentityOnce(ops: seq<Operation>, ws: seq<Write>) {
    && (forall i, j :: 0 <= i < j < |ws| ==> !Is(ws[i].entity, ws[j].entity.etype, ws[j].entity.id))
    && (forall w :: w in ws <==> Single(w.kind, w.entity) in ops)
  }

  lemma PlanWritesOnce(ops: seq<Operation>, ws: seq<Write>)
    requires OncePerIdentity(ops) && multiset(ws) == multiset(Writes(ops))
    ensures EachIdentityOnce(ops, ws)
  {
    MatchDistinct(ops);
    SamePermutation(ws, Writes(ops));
    forall i, j | 0 <= i < j < |ws| ensures !Is(ws[i].entity, ws[j].entity.etype, ws[j].entity.id) {
      assert ws[i] in ws && ws[j] in ws;
      assert Single(ws[i].kind, ws[i].entity) in ops && Single(ws[j].kind, ws[j].entity) in ops;
      var p :| 0 <= p < |ops| && ops[p] == Single(ws[i].kind, ws[i].entity);
      var q :| 0 <= q < |ops| && ops[q] == Single(ws[j].kind, ws[j].entity);
      assert p != q;
    }
  }

  /** Each tracked identity once: inserts, dependencies first, then updates, then deletes. */
  ghost predicate IsPlan(g: Graph, ops: seq<Operation>, plan: seq<Operation>) {
    EachIdentityOnce(ops, Writes(plan)) && WellOrdered(g, Writes(plan))
  }

  /** The operations, merged where that is enabled, in their three phases. */
  ghost predicate Phases(g: Graph, w: Weights, merge: bool, ops: seq<Operation>, plan: seq<Operation>) {
    exists merged :: NonEmpty(merged) && (if merge then Merged(ops, merged) && FirstsInOrder(ops, merged) else merged == ops)
                     && InPhases(g, w, merged, plan)
  }

  /** done is what comes before some operation of such a plan. */
  ghost predicate PartOfAPlan(g: Graph, ops: seq<Operation>, done: seq<Operation>) {
    exists plan :: IsPlan(g, ops, plan) && |done| < |plan| && done == plan[..|done|]
  }

  /** A commit stops at the operation the database rejects, or before the first. */
  predicate Stops(error: Error, failing: Option<nat>, done: seq<Operation>) {
    if error.OperationFailed? then error.index == |done| && failing == Some(|done|) else done == []
  }

  ghost predicate Written(ws: seq<Write>, kind: Kind, t: TypeName, id: nat) {
    exists w :: w in ws && w.kind == kind && Is(w.entity, t, id)
  }

  /** What is written are exactly the new, dirty and removed identities. */
  lemma TrackedIsWritten(created: Table, dirty: Table, removed: Table, ops: seq<Operation>, ws: seq<Write>, t: TypeName, id: nat)
    requires Consistent(created, dirty, removed, ops) && EachIdentityOnce(ops, ws)
    ensures Written(ws, Insert, t, id) <==> Holds(created, t, id)
    ensures Written(ws, Update, t, id) <==> Holds(dirty, t, id)
    ensures Written(ws, Delete, t, id) <==> Holds(removed, t, id)
  {
    WrittenMeansQueued(ops, ws, Insert, t, id);
    WrittenMeansQueued(ops, ws, Update, t, id);
    WrittenMeansQueued(ops, ws, Delete, t, id);
  }

  lemma WrittenMeansQueued(ops: seq<Operation>, ws: seq<Write>, kind: Kind, t: TypeName, id: nat)
    requires EachIdentityOnce(ops, ws)
    ensures Written(ws, kind, t, id) <==> Queued(ops, kind, t, id)
  {
    QueuedBy(ops, kind, t, id);
    if Written(ws, kind, t, id) {
      var w :| w in ws && w.kind == kind && Is(w.entity, t, id);
      assert Single(w.kind, w.entity) in ops;
    }
    if Queued(ops, kind, t, id) {
      var op :| op in ops && op.Single? && op.kind == kind && Is(op.entity, t, id);
      assert Write(op.kind, op.entity) in ws;
    }
  }

  /** Carry operations out one by one, until the database rejects one. */
  method ExecuteOperations(plan: seq<Operation>, failing: Option<nat>) returns (done: seq<Operation>)
    ensures done == if failing.Some? && failing.value < |plan| then plan[..failing.value] else plan
  {
    done := [];
    for i := 0 to |plan|
      invariant done == plan[..i] && (failing.Some? ==> i <= failing.value || |plan| <= failing.value)
    {
      if failing == Some(i) {
        return done;
      }
      done := done + [plan[i]];
    }
  }

  // --------------------------------------------------------------------------- the class

  class UnitOfWork {
    var newEntities: Table
    var dirtyEntities: Table
    var removedEntities: Table
    var operations: seq<Operation>
    var isCommitted: bool
    var isRolledBack: bool
    const deps: DependencyManager
    const enableDirtyCheck: bool
    const enableOperationMerge: bool
    const maxEntityCount: int

    /** Holds in every run of calls. */
    ghost predicate Valid()
      reads this
    {
      Consistent(newEntities, dirtyEntities, removedEntities, operations)
    }

    ghost function Total(): nat
      reads this
    {
      Size(newEntities, newEntities.Keys) + Size(dirtyEntities, dirtyEntities.Keys) + Size(removedEntities, removedEntities.Keys)
    }

    /** An identity's place: which table lists it. */
    ghost predicate InNew(e: Entity) reads this { Holds(newEntities, e.etype, e.id) }
    ghost predicate InDirty(e: Entity) reads this { Holds(dirtyEntities, e.etype, e.id) }
    ghost predicate InRemoved(e: Entity) reads this { Holds(removedEntities, e.etype, e.id) }

    constructor (deps: DependencyManager, enableDirtyCheck: bool, enableOperationMerge: bool, maxEntityCount: int)
      ensures Valid() && operations == [] && !isCommitted && !isRolledBack && this.deps == deps
      ensures this.enableDirtyCheck == enableDirtyCheck && this.enableOperationMerge == enableOperationMerge
      ensures this.maxEntityCount == maxEntityCount
    {
      newEntities, dirtyEntities, removedEntities, operations := map[], map[], map[], [];
      isCommitted, isRolledBack := false, false;
      this.deps, this.enableDirtyCheck := deps, enableDirtyCheck;
      this.enableOperationMerge, this.maxEntityCount := enableOperationMerge, maxEntityCount;
    }

    method CheckMemoryLimit() returns (ok: bool)
      ensures !ok <==> 0 < maxEntityCount <= Total()
    {
      if maxEntityCount <= 0 {
        return true;
      }
      var a := GetEntityCountByType(newEntities);
      var b := GetEntityCountByType(dirtyEntities);
      var c := GetEntityCountByType(removedEntities);
      return a + b + c < maxEntityCount;
    }

    method Create(entity: Option<Entity>) returns (r: Result<(), Error>)
      requires Valid()
      modifies this`newEntities, this`operations
      ensures Valid()
      ensures r == if isCommitted || isRolledBack then Err(Finished)
                   else if entity.None? then Err(NilEntity)
                   else if old(InDirty(entity.value)) then Err(AlreadyDirty)
                   else if old(InRemoved(entity.value)) then Err(AlreadyRemoved)
                   else if old(InNew(entity.value)) then Ok(())
                   else if old(0 < maxEntityCount <= Total()) then Err(LimitExceeded)
                   else Ok(())
      ensures if r.Ok? && !old(InNew(entity.value))
              then operations == old(operations) + [Single(Insert, entity.value)] && newEntities == old(Add(newEntities, entity.value))
              else operations == old(operations) && newEntities == old(newEntities)
    {
      if isCommitted || isRolledBack {
        return Err(Finished);
      }
      if entity.None? {
        return Err(NilEntity);
      }
      var e := entity.value;
      var dirty := ContainsEntity(dirtyEntities, e);
      if dirty {
        return Err(AlreadyDirty);
      }
      var removed := ContainsEntity(removedEntities, e);
      if removed {
        return Err(AlreadyRemoved);
      }
      var known := ContainsEntity(newEntities, e);
      if known {
        return Ok(());
      }
      var room := CheckMemoryLimit();
      if !room {
        return Err(LimitExceeded);
      }
      CreateKeeps(newEntities, dirtyEntities, removedEntities, operations, e);
      newEntities := Add(newEntities, e);
      operations := operations + [Single(Insert, e)];
      return Ok(());
    }

    /** looksDirty is the snapshot manager's verdict on the entity. */
    method Update(entity: Option<Entity>, looksDirty: bool) returns (r: Result<(), Error>)
      requires Valid()
      modifies this`dirtyEntities, this`operations
      ensures Valid()
      ensures r == if isCommitted || isRolledBack then Err(Finished)
                   else if entity.None? then Err(NilEntity)
                   else if old(InNew(entity.value)) then Ok(())
                   else if old(InRemoved(entity.value)) then Err(AlreadyRemoved)
                   else Ok(())
      ensures if r.Ok? && !old(InNew(entity.value)) && !old(InDirty(entity.value)) && (enableDirtyCheck ==> looksDirty)
              then operations == old(operations) + [Single(Kind.Update, entity.value)]
                   && dirtyEntities == old(Add(dirtyEntities, entity.value))
              else operations == old(operations) && dirtyEntities == old(dirtyEntities)
    {
      if isCommitted || isRolledBack {
        return Err(Finished);
      }
      if entity.None? {
        return Err(NilEntity);
      }
      var e := entity.value;
      var known := ContainsEntity(newEntities, e);
      if known {
        return Ok(());
      }
      var removed := ContainsEntity(removedEntities, e);
      if removed {
        return Err(AlreadyRemoved);
      }
      var dirty := ContainsEntity(dirtyEntities, e);
      if dirty {
        return Ok(());
      }
      if enableDirtyCheck && !looksDirty {
        return Ok(());
      }
      UpdateKeeps(newEntities, dirtyEntities, removedEntities, operations, e);
      dirtyEntities := Add(dirtyEntities, e);
      operations := operations + [Single(Kind.Update, e)];
      return Ok(());
    }

    method Delete(entity: Option<Entity>) returns (r: Result<(), Error>)
      requires Valid()
      modifies this`newEntities, this`dirtyEntities, this`removedEntities, this`operations
      ensures Valid()
      ensures r == if isCommitted || isRolledBack then Err(Finished) else if entity.None? then Err(NilEntity) else Ok(())
      ensures r.Err? ==> unchanged(this)
      ensures r.Ok? && old(InNew(entity.value)) ==>
                && operations == old(Without(operations, entity.value))
                && Dropped(old(newEntities), entity.value, newEntities)
                && dirtyEntities == old(dirtyEntities) && removedEntities == old(removedEntities)
      ensures r.Ok? && !old(InNew(entity.value)) ==>
                && operations == old(Without(operations, entity.value)) + [Single(Kind.Delete, entity.value)]
                && newEntities == old(newEntities) && Dropped(old(dirtyEntities), entity.value, dirtyEntities)
                && removedEntities == old(Add(removedEntities, entity.value))
    {
      if isCommitted || isRolledBack {
        return Err(Finished);
      }
      if entity.None? {
        return Err(NilEntity);
      }
      var e := entity.value;
      var wasNew, rest := RemoveFromEntityList(newEntities, e);
      if wasNew {
        Forget(e, rest);
      } else {
        MarkRemoved(e);
      }
      return Ok(());
    }

    method Forget(e: Entity, rest: Table)
      requires Valid() && InNew(e) && Dropped(newEntities, e, rest)
      modifies this`newEntities, this`operations
      ensures Valid() && newEntities == rest && operations == old(Without(operations, e))
    {
      DropNewKeeps(newEntities, dirtyEntities, removedEntities, operations, e, rest);
      newEntities := rest;
      operations := RemoveOperationByEntity(operations, e);
    }

    method MarkRemoved(e: Entity)
      requires Valid() && !InNew(e)
      modifies this`dirtyEntities, this`removedEntities, this`operations
      ensures Valid() && Dropped(old(dirtyEntities), e, dirtyEntities)
      ensures operations == old(Without(operations, e)) + [Single(Kind.Delete, e)]
      ensures removedEntities == old(Add(removedEntities, e))
    {
      var wasDirty, clean := RemoveFromEntityList(dirtyEntities, e);
      DeleteKeeps(newEntities, dirtyEntities, removedEntities, operations, e, clean);
      var ops := RemoveOperationByEntity(operations, e);
      dirtyEntities, removedEntities := clean, Add(removedEntities, e);
      operations := ops + [Single(Kind.Delete, e)];
    }

    method OptimizeOperations() returns (ops: seq<Operation>)
      requires Valid()
      ensures NonEmpty(ops) && DistinctPerKind(ops) && Uniform(ops) && NonEmpty(operations)
      ensures forall kind :: TypesQueued(ops, kind) == TypesQueued(operations, kind)
      ensures multiset(Writes(ops)) == multiset(Writes(operations))
      ensures if enableOperationMerge then Merged(operations, ops) && FirstsInOrder(operations, ops) else ops == operations
    {
      SinglesAreFit(operations);
      if !enableOperationMerge {
        return operations;
      }
      ops := RemoveInvalidOperations(operations);
      ops := MergeOperations(ops);
      SinglesMerge(operations);
      MergedInOrder(operations);
      MergedAreFit(operations, ops);
      MergingPreservesWrites(operations);
    }

    /** Inserts in a circle, or a delete whose type depends on that of another. */
    ghost predicate Unplannable()
      reads this, deps
    {
      NonEmpty(operations) && (HasCycle(deps.graph, TypesQueued(operations, Insert))
                               || EdgeInside(deps.graph, TypesQueued(operations, Kind.Delete)))
    }

    /** Every identity once and in order, in the phases that the dependencies give. */
    ghost predicate Fulfils(ops: seq<Operation>, plan: seq<Operation>)
      reads deps
    {
      IsPlan(deps.graph, ops, plan) && Phases(deps.graph, deps.weights, enableOperationMerge, ops, plan)
    }

    /** What will be carried out, in order: every tracked identity once. */
    method Plan() returns (r: Result<seq<Operation>, CycleError>)
      requires Valid() && deps.Valid()
      ensures r.Err? <==> Unplannable()
      ensures r.Ok? ==> Fulfils(operations, r.value)
    {
      var ops := OptimizeOperations();
      OfKindDistinct(ops, Insert);
      OfKindDistinct(ops, Kind.Delete);
      HeadTypesOfKind(ops, Insert);
      HeadTypesOfKind(ops, Kind.Delete);
      r := SortOperations(deps, ops);
      if r.Ok? {
        WritesPermute(r.value, ops);
        PlanWritesOnce(operations, Writes(r.value));
        UniformPermutes(ops, r.value);
        WritesWellOrdered(deps.graph, r.value);
      }
    }

    method Clear()
      modifies this`newEntities, this`dirtyEntities, this`removedEntities, this`operations
      ensures Valid() && operations == [] && newEntities == dirtyEntities == removedEntities == map[]
    {
      newEntities, dirtyEntities, removedEntities, operations := map[], map[], map[], [];
    }

    /** failing is the index of the first operation the database rejects, if any. */
    method CarryOut(failing: Option<nat>) returns (r: Result<(), Error>, done: seq<Operation>)
      requires Valid() && deps.Valid()
      ensures r.Ok? ==> Fulfils(operations, done)
      ensures r.Ok? && failing.Some? ==> |done| <= failing.value
      ensures r == Err(Circular) <==> Unplannable()
      ensures r.Err? ==> r.error == Circular || r.error == OperationFailed(|done|)
      ensures r == Err(Circular) ==> done == []
      ensures r == Err(OperationFailed(|done|)) ==> failing == Some(|done|) && PartOfAPlan(deps.graph, operations, done)
    {
      var plan := Plan();
      if plan.Err? {
        return Err(Circular), [];
      }
      done := ExecuteOperations(plan.value, failing);
      if |done| < |plan.value| {
        assert IsPlan(deps.graph, operations, plan.value) && done == plan.value[..|done|];
        return Err(OperationFailed(|done|)), done;
      }
      return Ok(()), done;
    }

    method Conclude(failing: Option<nat>) returns (r: Result<(), Error>, done: seq<Operation>)
      requires Valid() && deps.Valid() && !isCommitted && !isRolledBack
      modifies this`newEntities, this`dirtyEntities, this`removedEntities, this`operations, this`isCommitted
      ensures Valid()
      ensures r == Err(Circular) <==> old(Unplannable())
      ensures r.Err? ==> unchanged(this)
      ensures r.Ok? ==> isCommitted && operations == [] && newEntities == dirtyEntities == removedEntities == map[]
      ensures r.Ok? ==> Fulfils(old(operations), done) && (failing.Some? ==> |done| <= failing.value)
      ensures r.Err? ==> Stops(r.error, failing, done)
      ensures r.Err? && r.error.OperationFailed? ==> PartOfAPlan(deps.graph, old(operations), done)
    {
      r, done := CarryOut(failing);
      if r.Ok? {
        isCommitted := true;
        Clear();
      }
    }

    method Commit(failing: Option<nat>) returns (r: Result<(), Error>, done: seq<Operation>)
      requires Valid() && deps.Valid()
      modifies this`newEntities, this`dirtyEntities, this`removedEntities, this`operations, this`isCommitted
      ensures Valid()
      ensures old(isCommitted) ==> r == Err(AlreadyCommitted)
      ensures !old(isCommitted) && isRolledBack ==> r == Err(AlreadyRolledBack)
      ensures !old(isCommitted) && !isRolledBack ==> (r == Err(Circular) <==> old(Unplannable()))
      ensures r.Err? ==> unchanged(this)
      ensures r.Ok? ==> isCommitted && operations == [] && newEntities == dirtyEntities == removedEntities == map[]
      ensures r.Ok? ==> Fulfils(old(operations), done) && (failing.Some? ==> |done| <= failing.value)
      ensures r.Err? ==> Stops(r.error, failing, done)
      ensures r.Err? && r.error.OperationFailed? ==> PartOfAPlan(deps.graph, old(operations), done)
    {
      if isCommitted {
        return Err(AlreadyCommitted), [];
      }
      if isRolledBack {
        return Err(AlreadyRolledBack), [];
      }
      r, done := Conclude(failing);
    }

    method Rollback() returns (r: Result<(), Error>)
      requires Valid()
      modifies this`newEntities, this`dirtyEntities, this`removedEntities, this`operations, this`isRolledBack
      ensures Valid()
      ensures r == if isCommitted then Err(AlreadyCommitted) else if old(isRolledBack) then Err(AlreadyRolledBack) else Ok(())
      ensures r.Err? ==> unchanged(this)
      ensures r.Ok? ==> isRolledBack && operations == [] && newEntities == dirtyEntities == removedEntities == map[]
    {
      if isCommitted {
        return Err(AlreadyCommitted);
      }
      if isRolledBack {
        return Err(AlreadyRolledBack);
      }
      isRolledBack := true;
      Clear();
      return Ok(());
    }
  }

  lemma DropNewKeeps(created: Table, dirty: Table, removed: Table, ops: seq<Operation>, e: Entity, rest: Table)
    requires Consistent(created, dirty, removed, ops) && Dropped(created, e, rest) && !Unlisted(created, e)
    ensures Consistent(rest, dirty, removed, Without(ops, e)) && Unlisted(rest, e)
  {
    var k :| e.etype in created && 0 <= k < |created[e.etype]| && created[e.etype][k].id == e.id && rest == Remove(created, e.etype, k);
    DeleteNewKeeps(created, dirty, removed, ops, e, k);
    RemoveHolds(created, e.etype, k, e.etype, e.id);
  }

  lemma UniformPermutes(ops: seq<Operation>, r: seq<Operation>)
    requires NonEmpty(ops) && NonEmpty(r) && Uniform(ops) && multiset(r) == multiset(ops)
    ensures Uniform(r)
  {
    SamePermutation(r, ops);
  }
}
