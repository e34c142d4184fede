/** The order in which queued operations are carried out (unitofwork/unitofwork.go:510-597). */
module Schedule {
  import opened Base
  import opened DependencyGraph
  import opened KahnOrder
  import opened Dependency
  import opened Operations

  // ------------------------------------------------------------------- operation keys

  function Decimal(n: nat): string {
    var digit := [(n % 10 + '0' as int) as char];
    if n < 10 then digit else Decimal(n / 10) + digit
  }

  /** The text under which an operation is filed: type, '#', id. */
  function KeyOf(e: Entity): string {
    e.etype + "#" + Decimal(e.id)
  }

  lemma {:induction false} DecimalHasNoHash(n: nat)
    ensures '#' !in Decimal(n)
  {
    if n >= 10 {
      DecimalHasNoHash(n / 10);
    }
  }

  lemma {:induction false} DecimalInjective(m: nat, n: nat)
    requires Decimal(m) == Decimal(n)
    ensures m == n
    decreases m
  {
    var s, t := Decimal(m), Decimal(n);
    DecimalNonEmpty(m / 10);
    DecimalNonEmpty(n / 10);
    assert s[|s| - 1] == t[|t| - 1];
    if m >= 10 && n >= 10 {
      assert s[..|s| - 1] == Decimal(m / 10) && t[..|t| - 1] == Decimal(n / 10);
      DecimalInjective(m / 10, n / 10);
    }
  }

  lemma DecimalNonEmpty(n: nat)
    ensures |Decimal(n)| > 0
  {
  }

  lemma SplitAtLastHash(a: string, x: string, b: string, y: string)
    requires a + "#" + x == b + "#" + y && '#' !in x && '#' !in y
    ensures a == b && x == y
  {
    var s := a + "#" + x;
    assert s[|a|] == '#' && s[|b|] == '#';
    assert forall i :: |a| < i < |s| ==> s[i] == x[i - |a| - 1];
    assert forall i :: |b| < i < |s| ==> s[i] == y[i - |b| - 1];
    assert |a| == |b|;
    assert a == s[..|a|] && b == s[..|b|] && x == s[|a| + 1..] && y == s[|b| + 1..];
  }

  /** Keys tell entities apart exactly as type and id do. */
  lemma KeysSeparate(d: Entity, e: Entity)
    ensures KeyOf(d) == KeyOf(e) <==> d.etype == e.etype && d.id == e.id
  {
    if KeyOf(d) == KeyOf(e) {
      DecimalHasNoHash(d.id);
      DecimalHasNoHash(e.id);
      SplitAtLastHash(d.etype, Decimal(d.id), e.etype, Decimal(e.id));
      DecimalInjective(d.id, e.id);
    }
  }

  // ------------------------------------------------------------- sorting by entity

  function Head(op: Operation): Entity
    requires GetEntity(op).Some?
  {
    GetEntity(op).value
  }

  function Heads(ops: seq<Operation>): (r: seq<Entity>)
    requires NonEmpty(ops)
    ensures |r| == |ops| && forall i :: 0 <= i < |ops| ==> r[i] == Head(ops[i])
  {
    seq(|ops|, i requires 0 <= i < |ops| => Head(ops[i]))
  }

  /** No two operations stand for the same identity. */
  ghost predicate DistinctHeads(ops: seq<Operation>)
    requires NonEmpty(ops)
  {
    forall i, j :: 0 <= i < j < |ops| ==> Head(ops[i]).etype != Head(ops[j]).etype || Head(ops[i]).id != Head(ops[j]).id
  }

  ghost predicate DistinctPerKind(ops: seq<Operation>)
    requires NonEmpty(ops)
  {
    forall i, j :: 0 <= i < j < |ops| && ops[i].kind == ops[j].kind ==>
      Head(ops[i]).etype != Head(ops[j]).etype || Head(ops[i]).id != Head(ops[j]).id
  }

  ghost function HeadTypes(ops: seq<Operation>): set<TypeName>
    requires NonEmpty(ops)
  {
    Elements(Types(Heads(ops)))
  }

  predicate SameId(d: Entity, e: Entity) {
    d.etype == e.etype && d.id == e.id
  }

  /** The last operation filed under e's identity. */
  function Latest(ops: seq<Operation>, e: Entity): Option<Operation>
    requires NonEmpty(ops)
  {
    if ops == [] then None
    else if SameId(Head(ops[|ops| - 1]), e) then Some(ops[|ops| - 1])
    else Latest(ops[..|ops| - 1], e)
  }

  lemma {:induction false} LatestIs(ops: seq<Operation>, e: Entity)
    requires NonEmpty(ops)
    ensures Latest(ops, e).Some? ==> Latest(ops, e).value in ops && SameId(Head(Latest(ops, e).value), e)
    ensures (exists op :: op in ops && SameId(Head(op), e)) ==> Latest(ops, e).Some?
  {
    if ops != [] {
      LatestIs(ops[..|ops| - 1], e);
      assert ops == ops[..|ops| - 1] + [ops[|ops| - 1]];
    }
  }

  /** The last operation on an identity is the one that counts. */
  lemma {:induction false} LatestIsLast(ops: seq<Operation>, e: Entity, k: nat)
    requires NonEmpty(ops) && k < |ops| && SameId(Head(ops[k]), e)
    requires forall j :: k < j < |ops| ==> !SameId(Head(ops[j]), e)
    ensures Latest(ops, e) == Some(ops[k])
  {
    if k < |ops| - 1 {
      LatestIsLast(ops[..|ops| - 1], e, k);
    }
  }

  lemma {:induction false} LatestOfDistinct(ops: seq<Operation>, k: nat)
    requires NonEmpty(ops) && DistinctHeads(ops) && k < |ops|
    ensures Latest(ops, Head(ops[k])) == Some(ops[k])
  {
    if k < |ops| - 1 {
      LatestOfDistinct(ops[..|ops| - 1], k);
    }
  }

  /** Every operation, replaced by the last one with its identity. */
  ghost function Latests(ops: seq<Operation>, es: seq<Entity>): (r: seq<Operation>)
    requires NonEmpty(ops) && forall e :: e in es ==> Latest(ops, e).Some?
    ensures |r| == |es| && forall i :: 0 <= i < |es| ==> Latest(ops, es[i]) == Some(r[i])
  {
    seq(|es|, i requires 0 <= i < |es| => Latest(ops, es[i]).value)
  }

  lemma HeadsAreFiled(ops: seq<Operation>)
    requires NonEmpty(ops)
    ensures forall e :: e in Heads(ops) ==> Latest(ops, e).Some?
  {
    forall e | e in Heads(ops) ensures Latest(ops, e).Some? {
      var k :| 0 <= k < |ops| && Heads(ops)[k] == e;
      assert ops[k] in ops;
      LatestIs(ops, e);
    }
  }

  /** What sorting has to arrange: the same operations, unless two stand for the same identity. */
  ghost function Standing(ops: seq<Operation>): (r: seq<Operation>)
    requires NonEmpty(ops)
    ensures DistinctHeads(ops) ==> r == ops
  {
    HeadsAreFiled(ops);
    if DistinctHeads(ops) then
      (forall k | 0 <= k < |ops| ensures Latest(ops, Head(ops[k])) == Some(ops[k]) { LatestOfDistinct(ops, k); }
      Latests(ops, Heads(ops)))
    else Latests(ops, Heads(ops))
  }

  lemma {:induction false} LatestsPermute(ops: seq<Operation>, es: seq<Entity>, fs: seq<Entity>)
    requires NonEmpty(ops) && multiset(es) == multiset(fs)
    requires (forall e :: e in es ==> Latest(ops, e).Some?) && forall e :: e in fs ==> Latest(ops, e).Some?
    ensures multiset(Latests(ops, es)) == multiset(Latests(ops, fs))
    decreases |es|
  {
    if es == [] {
      NoneInEmpty(fs);
    } else {
      var n := |es| - 1;
      assert es == es[..n] + [es[n]];
      var front, back := FindLast(es[..n], es[n], fs);
      LatestsPermute(ops, es[..n], front + back);
      LatestsSplit(ops, es[..n], es[n], [], es);
      assert es[..n] + [] == es[..n];
      LatestsSplit(ops, front, es[n], back, fs);
    }
  }

  lemma LatestsSplit(ops: seq<Operation>, front: seq<Entity>, e: Entity, back: seq<Entity>, es: seq<Entity>)
    requires NonEmpty(ops) && es == front + [e] + back && forall x :: x in es ==> Latest(ops, x).Some?
    ensures forall x :: x in front + back ==> x in es
    ensures Latest(ops, e).Some?
    ensures multiset(Latests(ops, es)) == multiset(Latests(ops, front + back)) + multiset{Latest(ops, e).value}
  {
    assert e in es;
    assert forall x :: x in front + back ==> x in es;
    LatestsAppend(ops, front, back);
    LatestsAppend(ops, front, [e]);
    LatestsAppend(ops, front + [e], back);
    assert Latests(ops, [e]) == [Latest(ops, e).value];
  }

  lemma LatestsAppend(ops: seq<Operation>, a: seq<Entity>, b: seq<Entity>)
    requires NonEmpty(ops) && forall x :: x in a + b ==> Latest(ops, x).Some?
    ensures (forall x :: x in a ==> Latest(ops, x).Some?) && forall x :: x in b ==> Latest(ops, x).Some?
    ensures Latests(ops, a + b) == Latests(ops, a) + Latests(ops, b)
  {
    assert forall x :: x in a + b <==> x in a || x in b;
  }

  type Filed = map<string, Operation>

  /** Under every key is the last operation with that identity. */
  ghost predicate FiledAs(ops: seq<Operation>, filed: Filed)
    requires NonEmpty(ops)
  {
    forall e: Entity :: Latest(ops, e) == if KeyOf(e) in filed then Some(filed[KeyOf(e)]) else None
  }

  lemma FiledNext(ops: seq<Operation>, filed: Filed, i: nat)
    requires NonEmpty(ops) && i < |ops| && FiledAs(ops[..i], filed)
    ensures FiledAs(ops[..i + 1], filed[KeyOf(Head(ops[i])) := ops[i]])
  {
    assert ops[..i + 1][..i] == ops[..i];
    forall e: Entity
      ensures var now := filed[KeyOf(Head(ops[i])) := ops[i]];
        Latest(ops[..i + 1], e) == if KeyOf(e) in now then Some(now[KeyOf(e)]) else None
    {
      KeysSeparate(Head(ops[i]), e);
      assert Latest(ops[..i], e) == if KeyOf(e) in filed then Some(filed[KeyOf(e)]) else None;
    }
  }

  method FileOperations(ops: seq<Operation>) returns (es: seq<Entity>, filed: Filed)
    requires NonEmpty(ops)
    ensures es == Heads(ops) && FiledAs(ops, filed)
  {
    es, filed := [], map[];
    for i := 0 to |ops|
      invariant es == Heads(ops)[..i] && FiledAs(ops[..i], filed)
    {
      var e := GetEntity(ops[i]);
      if e.Some? {
        FiledNext(ops, filed, i);
        es := es + [e.value];
        filed := filed[KeyOf(e.value) := ops[i]];
      }
    }
    assert ops[..|ops|] == ops;
  }

  method Refile(ops: seq<Operation>, filed: Filed, es: seq<Entity>) returns (r: seq<Operation>)
    requires NonEmpty(ops) && FiledAs(ops, filed) && forall e :: e in es ==> Latest(ops, e).Some?
    ensures r == Latests(ops, es)
  {
    r := [];
    for i := 0 to |es|
      invariant r == Latests(ops, es)[..i]
    {
      assert es[i] in es && Latest(ops, es[i]) == if KeyOf(es[i]) in filed then Some(filed[KeyOf(es[i])]) else None;
      if KeyOf(es[i]) in filed {
        r := r + [filed[KeyOf(es[i])]];
      }
    }
  }

  lemma LatestsStand(ops: seq<Operation>, es: seq<Entity>)
    requires NonEmpty(ops) && multiset(es) == multiset(Heads(ops))
    ensures forall e :: e in es ==> Latest(ops, e).Some?
    ensures multiset(Latests(ops, es)) == multiset(Standing(ops))
    ensures NonEmpty(Latests(ops, es)) && Types(Heads(Latests(ops, es))) == Types(es)
  {
    HeadsAreFiled(ops);
    SamePermutation(es, Heads(ops));
    LatestsPermute(ops, es, Heads(ops));
    forall i | 0 <= i < |es| ensures Latests(ops, es)[i] in ops && SameId(Head(Latests(ops, es)[i]), es[i]) {
      LatestIs(ops, es[i]);
    }
  }

  lemma StandsIn(ops: seq<Operation>)
    requires NonEmpty(ops)
    ensures forall op :: op in Standing(ops) ==> op in ops
  {
    HeadsAreFiled(ops);
    forall op | op in Standing(ops) ensures op in ops {
      var i :| 0 <= i < |ops| && Standing(ops)[i] == op;
      LatestIs(ops, Heads(ops)[i]);
    }
  }

  lemma AloneIsAcyclic(g: Graph, ops: seq<Operation>)
    requires GraphOk(g) && NonEmpty(ops) && |ops| <= 1
    ensures !HasCycle(g, HeadTypes(ops)) && !EdgeInside(g, HeadTypes(ops))
    ensures DependenciesFirst(g, Types(Heads(ops)))
  {
    assert forall a, b :: a in HeadTypes(ops) && b in HeadTypes(ops) ==> a == b;
    assert !EdgeInside(g, HeadTypes(ops));
    forall p ensures !IsCycle(g, HeadTypes(ops), p) {
      assert |p| >= 2 && p[0] in HeadTypes(ops) && p[1] in HeadTypes(ops) ==> !Edge(g, p[0], p[1]);
    }
  }

  /** When the operations of one phase cannot be ordered. */
  ghost predicate Unsortable(g: Graph, ops: seq<Operation>, reverse: bool)
    requires NonEmpty(ops)
  {
    if reverse then EdgeInside(g, HeadTypes(ops)) else HasCycle(g, HeadTypes(ops))
  }

  /** The types of one phase in the order of the sort: as they are released, or for deletes from the heaviest down. */
  ghost function SortedTypes(g: Graph, w: Weights, ops: seq<Operation>, reverse: bool): seq<TypeName>
    requires NonEmpty(ops)
  {
    if reverse then Reversed(Expand(Arrange(w, HeadTypes(ops)), Heads(ops)))
    else Expand(TypeOrder(g, w, HeadTypes(ops), false), Heads(ops))
  }

  lemma OnlyType(r: seq<TypeName>, t: TypeName)
    requires NoDup(r) && Elements(r) == {t}
    ensures r == [t]
  {
    NoDupCard(r);
    assert r[0] in Elements(r);
  }

  lemma OneTypeOrder(g: Graph, w: Weights, t: TypeName)
    requires GraphOk(g)
    ensures Arrange(w, {t}) == [t] == TypeOrder(g, w, {t}, false)
  {
    OnlyType(Arrange(w, {t}), t);
    assert Preds(g, {t}, t) == {};
    assert Ready(g, {t}, {}, false) == {t};
    var rest := [t][1..] + Arrange(w, Released(g, {t}, Elements([]), t, false));
    assert [] + [t] == [t];
    assert Continue(g, w, {t}, [t], rest, false) == [t];
  }

  lemma ExpandOne(e: Entity)
    ensures Expand([e.etype], [e]) == [e.etype] == Types([e])
  {
    assert [e.etype][..0] == [] && [e][..0] == [];
    assert OfType([e], e.etype) == [e];
  }

  lemma AloneInOrder(g: Graph, w: Weights, ops: seq<Operation>, reverse: bool)
    requires GraphOk(g) && NonEmpty(ops) && |ops| <= 1
    ensures Types(Heads(ops)) == SortedTypes(g, w, ops, reverse)
  {
    var s := HeadTypes(ops);
    if ops == [] {
      ElementsEmpty(Arrange(w, s));
      ElementsEmpty(Arrange(w, Ready(g, s, {}, false)));
    } else {
      var h := Head(ops[0]);
      assert Heads(ops) == [h] && s == {h.etype};
      OneTypeOrder(g, w, h.etype);
      ExpandOne(h);
    }
  }

  method SortByEntityDependency(deps: DependencyManager, ops: seq<Operation>, reverse: bool)
    returns (r: Result<seq<Operation>, CycleError>)
    requires deps.Valid() && NonEmpty(ops)
    ensures r.Err? <==> Unsortable(deps.graph, ops, reverse)
    ensures r.Ok? ==> multiset(r.value) == multiset(Standing(ops)) && NonEmpty(r.value)
    ensures r.Ok? && !reverse ==> DependenciesFirst(deps.graph, Types(Heads(r.value)))
    ensures r.Ok? ==> Types(Heads(r.value)) == SortedTypes(deps.graph, deps.weights, ops, reverse)
  {
    if |ops| <= 1 {
      AloneIsAcyclic(deps.graph, ops);
      AloneInOrder(deps.graph, deps.weights, ops, reverse);
      return Ok(ops);
    }
    var es, filed := FileOperations(ops);
    var sorted;
    if reverse {
      sorted := deps.GetDeletionOrder(es);
    } else {
      sorted := deps.GetInsertionOrder(es);
    }
    if sorted.Err? {
      return Err(sorted.error);
    }
    LatestsStand(ops, sorted.value);
    var placed := Refile(ops, filed, sorted.value);
    return Ok(placed);
  }

  // ---------------------------------------------------------------- the three phases

  function Rank(kind: Kind): int {
    match kind case Insert => 0 case Update => 1 case Delete => 2
  }

  function OfKind(ops: seq<Operation>, kind: Kind): seq<Operation> {
    if ops == [] then [] else
    var op := ops[|ops| - 1];
    OfKind(ops[..|ops| - 1], kind) + if op.kind == kind then [op] else []
  }

  lemma {:induction false} OfKindIn(ops: seq<Operation>, kind: Kind)
    ensures forall op :: op in OfKind(ops, kind) <==> op in ops && op.kind == kind
  {
    if ops != [] {
      OfKindIn(ops[..|ops| - 1], kind);
      assert ops == ops[..|ops| - 1] + [ops[|ops| - 1]];
    }
  }

  lemma OfKindNonEmpty(ops: seq<Operation>, kind: Kind)
    requires NonEmpty(ops)
    ensures NonEmpty(OfKind(ops, kind))
  {
    OfKindIn(ops, kind);
    forall i | 0 <= i < |OfKind(ops, kind)| ensures GetEntity(OfKind(ops, kind)[i]).Some? {
      assert OfKind(ops, kind)[i] in ops;
    }
  }

  lemma {:induction false} OfKindDistinct(ops: seq<Operation>, kind: Kind)
    requires NonEmpty(ops) && DistinctPerKind(ops)
    ensures NonEmpty(OfKind(ops, kind)) && DistinctHeads(OfKind(ops, kind))
  {
    if ops != [] {
      var n := |ops| - 1;
      OfKindDistinct(ops[..n], kind);
      OfKindIn(ops[..n], kind);
      var front := OfKind(ops[..n], kind);
      forall i | 0 <= i < |front|
        ensures ops[n].kind == kind ==> Head(front[i]).etype != Head(ops[n]).etype || Head(front[i]).id != Head(ops[n]).id
      {
        assert front[i] in ops[..n];
        var k :| 0 <= k < n && ops[k] == front[i];
      }
    }
  }

  lemma {:induction false} OfKindCounts(ops: seq<Operation>, kind: Kind, op: Operation)
    ensures multiset(OfKind(ops, kind))[op] == if op.kind == kind then multiset(ops)[op] else 0
  {
    if ops != [] {
      var n := |ops| - 1;
      OfKindCounts(ops[..n], kind, op);
      assert ops == ops[..n] + [ops[n]];
    }
  }

  lemma PhasesPartition(ops: seq<Operation>)
    ensures multiset(OfKind(ops, Insert)) + multiset(OfKind(ops, Update)) + multiset(OfKind(ops, Delete)) == multiset(ops)
  {
    forall op ensures multiset(OfKind(ops, Insert))[op] + multiset(OfKind(ops, Update))[op]
                      + multiset(OfKind(ops, Delete))[op] == multiset(ops)[op] {
      OfKindCounts(ops, Insert, op);
      OfKindCounts(ops, Update, op);
      OfKindCounts(ops, Delete, op);
    }
  }

  method SplitByKind(ops: seq<Operation>)
    returns (inserts: seq<Operation>, updates: seq<Operation>, deletes: seq<Operation>)
    ensures inserts == OfKind(ops, Insert) && updates == OfKind(ops, Update) && deletes == OfKind(ops, Delete)
  {
    inserts, updates, deletes := [], [], [];
    for i := 0 to |ops|
      invariant inserts == OfKind(ops[..i], Insert) && updates == OfKind(ops[..i], Update)
      invariant deletes == OfKind(ops[..i], Delete)
    {
      assert ops[..i + 1][..i] == ops[..i];
      match ops[i].kind {
        case Insert => inserts := inserts + [ops[i]];
        case Update => updates := updates + [ops[i]];
        case Delete => deletes := deletes + [ops[i]];
      }
    }
    assert ops[..|ops|] == ops;
  }

  /** Inserts, then updates, then deletes. */
  ghost predicate Phased(ops: seq<Operation>) {
    forall i, j :: 0 <= i < j < |ops| ==> Rank(ops[i].kind) <= Rank(ops[j].kind)
  }

  ghost predicate InsertsDependenciesFirst(g: Graph, ops: seq<Operation>)
    requires NonEmpty(ops)
  {
    forall i, j :: 0 <= j <= i < |ops| && ops[i].kind == ops[j].kind == Insert ==>
      !Edge(g, Head(ops[i]).etype, Head(ops[j]).etype)
  }

  ghost predicate Blocked(g: Graph, ops: seq<Operation>)
    requires NonEmpty(ops)
  {
    OfKindNonEmpty(ops, Insert);
    OfKindNonEmpty(ops, Delete);
    Unsortable(g, OfKind(ops, Insert), false) || Unsortable(g, OfKind(ops, Delete), true)
  }

  /** The operations that sorting arranges: per phase the latest of each identity, and all updates. */
  ghost function StandingAll(ops: seq<Operation>): (m: multiset<Operation>)
    requires NonEmpty(ops)
    ensures DistinctPerKind(ops) ==> m == multiset(ops)
  {
    OfKindNonEmpty(ops, Insert);
    OfKindNonEmpty(ops, Delete);
    PhasesPartition(ops);
    if DistinctPerKind(ops) then
      (OfKindDistinct(ops, Insert); OfKindDistinct(ops, Delete);
      multiset(Standing(OfKind(ops, Insert))) + multiset(OfKind(ops, Update)) + multiset(Standing(OfKind(ops, Delete))))
    else
      multiset(Standing(OfKind(ops, Insert))) + multiset(OfKind(ops, Update)) + multiset(Standing(OfKind(ops, Delete)))
  }

  lemma KindsOf(ops: seq<Operation>, kind: Kind, sorted: seq<Operation>)
    requires NonEmpty(OfKind(ops, kind)) && multiset(sorted) == multiset(Standing(OfKind(ops, kind)))
    ensures forall i :: 0 <= i < |sorted| ==> sorted[i].kind == kind
  {
    OfKindIn(ops, kind);
    StandsIn(OfKind(ops, kind));
    forall i | 0 <= i < |sorted| ensures sorted[i].kind == kind {
      assert sorted[i] in multiset(sorted);
      assert sorted[i] in Standing(OfKind(ops, kind));
    }
  }

  lemma PhasesFollow(ins: seq<Operation>, ups: seq<Operation>, dels: seq<Operation>)
    requires forall i :: 0 <= i < |ins| ==> ins[i].kind == Insert
    requires forall i :: 0 <= i < |ups| ==> ups[i].kind == Update
    requires forall i :: 0 <= i < |dels| ==> dels[i].kind == Delete
    ensures Phased(ins + ups + dels)
    ensures forall i :: 0 <= i < |ins + ups + dels| ==> ((ins + ups + dels)[i].kind == Insert <==> i < |ins|)
  {
  }

  lemma InsertsStayFirst(g: Graph, ins: seq<Operation>, all: seq<Operation>)
    requires NonEmpty(ins) && NonEmpty(all) && |ins| <= |all| && DependenciesFirst(g, Types(Heads(ins)))
    requires forall i :: 0 <= i < |all| ==> (all[i].kind == Insert <==> i < |ins|)
    requires forall i :: 0 <= i < |ins| ==> all[i] == ins[i]
    ensures InsertsDependenciesFirst(g, all)
  {
    var ts := Types(Heads(ins));
    forall i, j | 0 <= j <= i < |all| && all[i].kind == all[j].kind == Insert
      ensures !Edge(g, Head(all[i]).etype, Head(all[j]).etype)
    {
      assert ts[i] == Head(all[i]).etype && ts[j] == Head(all[j]).etype;
    }
  }

  /** Three sorted phases, one after the other. */
  lemma PhasesInLine(g: Graph, ops: seq<Operation>, ins: seq<Operation>, dels: seq<Operation>)
    requires NonEmpty(ops) && NonEmpty(OfKind(ops, Insert)) && NonEmpty(OfKind(ops, Delete))
    requires multiset(ins) == multiset(Standing(OfKind(ops, Insert)))
    requires multiset(dels) == multiset(Standing(OfKind(ops, Delete)))
    requires NonEmpty(ins) && NonEmpty(dels) && DependenciesFirst(g, Types(Heads(ins)))
    ensures var all := ins + OfKind(ops, Update) + dels;
      multiset(all) == StandingAll(ops) && Phased(all) && NonEmpty(all) && InsertsDependenciesFirst(g, all)
  {
    var ups := OfKind(ops, Update);
    OfKindNonEmpty(ops, Update);
    OfKindIn(ops, Update);
    assert forall i :: 0 <= i < |ups| ==> ups[i] in ups;
    KindsOf(ops, Insert, ins);
    KindsOf(ops, Delete, dels);
    PhasesFollow(ins, ups, dels);
    InsertsStayFirst(g, ins, ins + ups + dels);
  }

  /** The inserts that stand, in the order of the sort, then the updates as they were, then the deletes that stand. */
  ghost predicate ThreePhases(g: Graph, w: Weights, ops: seq<Operation>, r: seq<Operation>, ins: seq<Operation>, dels: seq<Operation>)
    requires NonEmpty(ops)
  {
    OfKindNonEmpty(ops, Insert);
    OfKindNonEmpty(ops, Delete);
    && r == ins + OfKind(ops, Update) + dels && NonEmpty(ins) && NonEmpty(dels)
    && multiset(ins) == multiset(Standing(OfKind(ops, Insert))) && multiset(dels) == multiset(Standing(OfKind(ops, Delete)))
    && Types(Heads(ins)) == SortedTypes(g, w, OfKind(ops, Insert), false)
    && Types(Heads(dels)) == SortedTypes(g, w, OfKind(ops, Delete), true)
  }

  ghost predicate InPhases(g: Graph, w: Weights, ops: seq<Operation>, r: seq<Operation>)
    requires NonEmpty(ops)
  {
    exists ins, dels :: ThreePhases(g, w, ops, r, ins, dels)
  }

  /** Nothing comes after a delete but deletes, and no insert after an update. */
  lemma PhasedMeans(ops: seq<Operation>)
    ensures Phased(ops) <==> forall i, j :: 0 <= i < j < |ops| ==>
      (ops[i].kind == Delete ==> ops[j].kind == Delete) && (ops[i].kind == Update ==> ops[j].kind != Insert)
  {
  }

  /** The operations of a kind are those that have it, in their order. */
  lemma OfKindAppends(ops: seq<Operation>, op: Operation, kind: Kind)
    ensures OfKind([], kind) == [] && OfKind(ops + [op], kind) == OfKind(ops, kind) + if op.kind == kind then [op] else []
  {
    assert (ops + [op])[..|ops|] == ops;
  }

  method SortOperations(deps: DependencyManager, ops: seq<Operation>) returns (r: Result<seq<Operation>, CycleError>)
    requires deps.Valid() && NonEmpty(ops)
    ensures r.Err? <==> Blocked(deps.graph, ops)
    ensures r.Ok? ==> multiset(r.value) == StandingAll(ops) && Phased(r.value)
    ensures r.Ok? ==> NonEmpty(r.value) && InsertsDependenciesFirst(deps.graph, r.value)
    ensures r.Ok? ==> InPhases(deps.graph, deps.weights, ops, r.value)
  {
    OfKindNonEmpty(ops, Insert);
    OfKindNonEmpty(ops, Delete);
    if |ops| <= 1 {
      AloneIsUnblocked(deps.graph, ops);
      AloneInPhases(deps.graph, deps.weights, ops);
      return Ok(ops);
    }
    var inserts, updates, deletes := SplitByKind(ops);
    var sortedInserts := SortByEntityDependency(deps, inserts, false);
    if sortedInserts.Err? {
      return sortedInserts;
    }
    var sortedDeletes := SortByEntityDependency(deps, deletes, true);
    if sortedDeletes.Err? {
      return sortedDeletes;
    }
    var all := sortedInserts.value + updates + sortedDeletes.value;
    PhasesInLine(deps.graph, ops, sortedInserts.value, sortedDeletes.value);
    assert ThreePhases(deps.graph, deps.weights, ops, all, sortedInserts.value, sortedDeletes.value);
    return Ok(all);
  }

  lemma AloneApart(ops: seq<Operation>)
    requires |ops| <= 1
    ensures ops == OfKind(ops, Insert) + OfKind(ops, Update) + OfKind(ops, Delete)
    ensures |OfKind(ops, Insert)| <= 1 && |OfKind(ops, Delete)| <= 1
  {
    if |ops| == 1 {
      assert ops[..0] == [];
    }
  }

  lemma AlonePart(g: Graph, w: Weights, part: seq<Operation>, reverse: bool)
    requires GraphOk(g) && NonEmpty(part) && |part| <= 1
    ensures Standing(part) == part && Types(Heads(part)) == SortedTypes(g, w, part, reverse)
  {
    AloneInOrder(g, w, part, reverse);
  }

  lemma AloneInPhases(g: Graph, w: Weights, ops: seq<Operation>)
    requires GraphOk(g) && NonEmpty(ops) && |ops| <= 1
    ensures InPhases(g, w, ops, ops)
  {
    var ins, ups, dels := OfKind(ops, Insert), OfKind(ops, Update), OfKind(ops, Delete);
    OfKindNonEmpty(ops, Insert);
    OfKindNonEmpty(ops, Delete);
    AloneApart(ops);
    AlonePart(g, w, ins, false);
    AlonePart(g, w, dels, true);
    assert ThreePhases(g, w, ops, ops, ins, dels);
  }

  lemma AloneIsUnblocked(g: Graph, ops: seq<Operation>)
    requires GraphOk(g) && NonEmpty(ops) && |ops| <= 1
    ensures !Blocked(g, ops) && InsertsDependenciesFirst(g, ops) && DistinctPerKind(ops)
  {
    OfKindNonEmpty(ops, Insert);
    OfKindNonEmpty(ops, Delete);
    assert |ops| == 1 ==> ops[..0] == [];
    assert |OfKind(ops, Insert)| <= 1 && |OfKind(ops, Delete)| <= 1;
    AloneIsAcyclic(g, OfKind(ops, Insert));
    AloneIsAcyclic(g, OfKind(ops, Delete));
    AloneIsAcyclic(g, ops);
  }

  // ------------------------------------------------------------------- what is written

  /** All entities of one operation have one type. */
  ghost predicate Uniform(ops: seq<Operation>)
    requires NonEmpty(ops)
  {
    forall op, e :: op in ops && e in Payload(op) ==> e.etype == Head(op).etype
  }

  /** Inserts, then updates, then deletes; among the inserts every dependency first. */
  ghost predicate WellOrdered(g: Graph, ws: seq<Write>) {
    && (forall i, j :: 0 <= i < j < |ws| ==> Rank(ws[i].kind) <= Rank(ws[j].kind))
    && (forall i, j :: 0 <= j <= i < |ws| && ws[i].kind == ws[j].kind == Insert ==>
          !Edge(g, ws[i].entity.etype, ws[j].entity.etype))
  }

  lemma {:induction false} WrittenBy(ops: seq<Operation>, w: Write) returns (k: nat)
    requires w in Writes(ops)
    ensures k < |ops| && w.kind == ops[k].kind && w.entity in Payload(ops[k])
  {
    var n := |ops| - 1;
    if w in WritesOf(ops[n]) {
      k := n;
    } else {
      k := WrittenBy(ops[..n], w);
    }
  }

  lemma {:induction false} WritesWellOrdered(g: Graph, ops: seq<Operation>)
    requires GraphOk(g) && NonEmpty(ops) && Uniform(ops) && Phased(ops) && InsertsDependenciesFirst(g, ops)
    ensures WellOrdered(g, Writes(ops))
  {
    if ops != [] {
      var n := |ops| - 1;
      WritesWellOrdered(g, ops[..n]);
      var front, last := Writes(ops[..n]), WritesOf(ops[n]);
      forall i, j | 0 <= i < |front| && 0 <= j < |last| ensures Follows(g, front[i], last[j]) {
        var k := WrittenBy(ops[..n], front[i]);
        LaterFollows(g, ops, k, front[i], last[j]);
      }
      forall i, j | 0 <= i < |last| && 0 <= j < |last| ensures last[i].kind == last[j].kind && last[i].entity.etype == last[j].entity.etype {
        assert ops[n] in ops && last[i].entity in Payload(ops[n]) && last[j].entity in Payload(ops[n]);
      }
      AppendWellOrdered(g, front, last);
    }
  }

  ghost predicate Follows(g: Graph, v: Write, w: Write) {
    Rank(v.kind) <= Rank(w.kind) && (v.kind == w.kind == Insert ==> !Edge(g, w.entity.etype, v.entity.etype))
  }

  lemma LaterFollows(g: Graph, ops: seq<Operation>, k: nat, v: Write, w: Write)
    requires NonEmpty(ops) && Uniform(ops) && Phased(ops) && InsertsDependenciesFirst(g, ops) && k < |ops| - 1
    requires v.kind == ops[k].kind && v.entity in Payload(ops[k])
    requires w.kind == ops[|ops| - 1].kind && w.entity in Payload(ops[|ops| - 1])
    ensures Follows(g, v, w)
  {
    assert ops[k] in ops && ops[|ops| - 1] in ops;
  }

  lemma AppendWellOrdered(g: Graph, front: seq<Write>, last: seq<Write>)
    requires GraphOk(g) && WellOrdered(g, front)
    requires forall i, j :: 0 <= i < |front| && 0 <= j < |last| ==> Follows(g, front[i], last[j])
    requires forall i, j :: 0 <= i < |last| && 0 <= j < |last| ==>
               last[i].kind == last[j].kind && last[i].entity.etype == last[j].entity.etype
    ensures WellOrdered(g, front + last)
  {
    var all := front + last;
    forall i, j | 0 <= j <= i < |all| && all[i].kind == all[j].kind == Insert
      ensures !Edge(g, all[i].entity.etype, all[j].entity.etype)
    {
      if j < |front| <= i {
        assert Follows(g, front[j], last[i - |front|]);
      } else if |front| <= j {
        assert last[i - |front|].entity.etype == last[j - |front|].entity.etype;
      }
    }
    forall i, j | 0 <= i < j < |all| ensures Rank(all[i].kind) <= Rank(all[j].kind) {
      if i < |front| <= j {
        assert Follows(g, front[i], last[j - |front|]);
      } else if |front| <= i {
        assert last[i - |front|].kind == last[j - |front|].kind;
      }
    }
  }

  /** Reordering operations does not change what they write. */
  lemma {:induction false} WritesPermute(a: seq<Operation>, b: seq<Operation>)
    requires multiset(a) == multiset(b)
    ensures multiset(Writes(a)) == multiset(Writes(b))
    decreases |a|
  {
    if a == [] {
      NoneInEmpty(b);
    } else {
      var n := |a| - 1;
      assert a == a[..n] + [a[n]];
      var front, back := FindLast(a[..n], a[n], b);
      WritesPermute(a[..n], front + back);
      WritesInsert(a[..n], a[n], front, back);
    }
  }

  lemma NoneInEmpty<T>(s: seq<T>)
    requires multiset(s) == multiset([])
    ensures s == []
  {
    assert |s| == |multiset(s)|;
  }

  lemma FindLast<T>(a: seq<T>, x: T, b: seq<T>) returns (front: seq<T>, back: seq<T>)
    requires multiset(a + [x]) == multiset(b)
    ensures b == front + [x] + back && multiset(a) == multiset(front + back)
  {
    assert x in multiset(a + [x]);
    assert x in b;
    var k :| 0 <= k < |b| && b[k] == x;
    front, back := b[..k], b[k + 1..];
    TakeOut(b, k);
    assert multiset(a) == multiset(a + [x]) - multiset{x};
  }

  lemma WritesInsert(a: seq<Operation>, op: Operation, front: seq<Operation>, back: seq<Operation>)
    requires multiset(Writes(a)) == multiset(Writes(front + back))
    ensures multiset(Writes(a + [op])) == multiset(Writes(front + [op] + back))
  {
    WritesLast(a, op, a + [op]);
    WritesExtract(front, op, back);
  }

  lemma TakeOut<T>(s: seq<T>, k: nat)
    requires k < |s|
    ensures multiset(s[..k] + s[k + 1..]) == multiset(s) - multiset{s[k]}
  {
    assert s == s[..k] + [s[k]] + s[k + 1..];
  }

  lemma WritesExtract(front: seq<Operation>, op: Operation, back: seq<Operation>)
    ensures multiset(Writes(front + [op] + back)) == multiset(Writes(front + back)) + multiset(WritesOf(op))
  {
    WritesLast(front, op, front + [op]);
    WritesAppend(front + [op], back);
    WritesAppend(front, back);
  }
}
