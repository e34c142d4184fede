/** The dependency manager (unitofwork/dependency.go). */
module Dependency {
  import opened Base
  import opened Sorting
  import opened DependencyGraph
  import opened KahnOrder

  /** An entity: its type, its id, and the object itself. */
  datatype Entity = Entity(etype: TypeName, id: nat, ref: nat)

  datatype CycleError = CircularDependency

  // ---------------------------------------------------------------- groups of entities

  function Types(es: seq<Entity>): (r: seq<TypeName>)
    ensures |r| == |es| && forall i :: 0 <= i < |es| ==> r[i] == es[i].etype
  {
    seq(|es|, i requires 0 <= i < |es| => es[i].etype)
  }

  function OfType(es: seq<Entity>, t: TypeName): seq<Entity> {
    if es == [] then [] else
    OfType(es[..|es| - 1], t) + if es[|es| - 1].etype == t then [es[|es| - 1]] else []
  }

  lemma {:induction false} OfTypeCounts(es: seq<Entity>, t: TypeName, e: Entity)
    ensures multiset(OfType(es, t))[e] == if e.etype == t then multiset(es)[e] else 0
  {
    if es != [] {
      OfTypeCounts(es[..|es| - 1], t, e);
      assert es == es[..|es| - 1] + [es[|es| - 1]];
    }
  }

  function Repeat(t: TypeName, n: nat): (r: seq<TypeName>)
    ensures |r| == n && forall i :: 0 <= i < n ==> r[i] == t
  {
    seq(n, _ => t)
  }

  lemma TypesAppend(a: seq<Entity>, b: seq<Entity>)
    ensures Types(a + b) == Types(a) + Types(b)
  {
  }

  /** Every type of the order, as often as entities have it. */
  function Expand(order: seq<TypeName>, es: seq<Entity>): seq<TypeName> {
    if order == [] then [] else
    var t := order[|order| - 1];
    Expand(order[..|order| - 1], es) + Repeat(t, |OfType(es, t)|)
  }

  lemma ExpandNext(order: seq<TypeName>, t: TypeName, es: seq<Entity>)
    ensures Expand(order + [t], es) == Expand(order, es) + Repeat(t, |OfType(es, t)|)
  {
    assert (order + [t])[..|order|] == order;
  }

  /** Within Expand, a dependency stands before all that depends on it. */
  ghost predicate DependenciesFirst(g: Graph, ts: seq<TypeName>) {
    forall i, j :: 0 <= i < |ts| && 0 <= j < |ts| && Edge(g, ts[i], ts[j]) ==> i < j
  }

  lemma {:induction false} ExpandIn(order: seq<TypeName>, es: seq<Entity>, x: TypeName)
    requires x in Expand(order, es)
    ensures x in order
  {
    if order != [] && x != order[|order| - 1] {
      ExpandIn(order[..|order| - 1], es, x);
    }
  }

  lemma {:induction false} ExpandRespects(g: Graph, s: set<TypeName>, order: seq<TypeName>, es: seq<Entity>)
    requires GraphOk(g) && NoDup(order) && Elements(order) <= s && Respects(g, s, order)
    ensures DependenciesFirst(g, Expand(order, es))
    decreases |order|
  {
    if order != [] {
      var n := |order| - 1;
      var t := order[n];
      var front := Expand(order[..n], es);
      assert forall i :: 0 <= i <= n ==> order[..n][..i] == order[..i];
      ExpandRespects(g, s, order[..n], es);
      var all := Expand(order, es);
      forall i, j | 0 <= i < |all| && 0 <= j < |all| && Edge(g, all[i], all[j]) ensures i < j {
        if j < |front| <= i {
          ExpandIn(order[..n], es, front[j]);
          LastHasNoEdgeBack(g, s, order, front[j]);
        }
      }
    }
  }

  lemma LastHasNoEdgeBack(g: Graph, s: set<TypeName>, order: seq<TypeName>, x: TypeName)
    requires NoDup(order) && Elements(order) <= s && Respects(g, s, order)
    requires order != [] && x in order[..|order| - 1]
    ensures !Edge(g, order[|order| - 1], x)
  {
    var t := order[|order| - 1];
    var k :| 0 <= k < |order| - 1 && order[k] == x;
    assert t in Elements(order) && t !in Elements(order[..k]);
    assert t !in Preds(g, s, order[k]);
  }

  lemma OfTypeTypes(es: seq<Entity>, t: TypeName, sorted: seq<Entity>)
    requires multiset(sorted) == multiset(OfType(es, t)) && |sorted| == |OfType(es, t)|
    ensures Types(sorted) == Repeat(t, |OfType(es, t)|)
  {
    forall i | 0 <= i < |sorted| ensures sorted[i].etype == t {
      assert sorted[i] in multiset(sorted);
      OfTypeCounts(es, t, sorted[i]);
    }
  }

  // ---------------------------------------------------------------------- the methods

  /** The keys of a map, in whatever order the runtime visits them. */
  method SomeOrder<T>(m: map<TypeName, T>) returns (r: seq<TypeName>)
    ensures NoDup(r) && Elements(r) == m.Keys
  {
    r := [];
    var rest := m.Keys;
    while rest != {}
      invariant NoDup(r) && rest <= m.Keys && Elements(r) == m.Keys - rest
      decreases |rest|
    {
      var x :| x in rest;
      ElementsAppend(r, [x]);
      assert Elements([x]) == {x};
      assert x !in r by {
        assert x !in Elements(r);
      }
      assert (m.Keys - rest) + {x} == m.Keys - (rest - {x});
      r := r + [x];
      rest := rest - {x};
    }
  }

  /** Add one to every listed type that has a counter. */
  method CountAll(deg: Degrees, types: seq<TypeName>) returns (r: Degrees)
    requires NoDup(types)
    ensures r.Keys == deg.Keys && forall x :: x in deg ==> r[x] == deg[x] + if x in types then 1 else 0
  {
    r := deg;
    for i := 0 to |types|
      invariant r.Keys == deg.Keys && forall x :: x in deg ==> r[x] == deg[x] + if x in types[..i] then 1 else 0
    {
      assert forall x :: x in types[..i + 1] <==> x in types[..i] || x == types[i];
      assert types[i] !in types[..i];
      if types[i] in r {
        r := r[types[i] := r[types[i]] + 1];
      }
    }
    assert types[..|types|] == types;
  }

  /** Subtract one from every listed type that has a counter; return those that reach zero. */
  method ReleaseAll(deg: Degrees, types: seq<TypeName>) returns (r: Degrees, ready: seq<TypeName>)
    requires NoDup(types)
    ensures r.Keys == deg.Keys && forall x :: x in deg ==> r[x] == deg[x] - if x in types then 1 else 0
    ensures NoDup(ready) && forall x :: x in ready <==> x in types && x in deg && r[x] == 0
  {
    r, ready := deg, [];
    for i := 0 to |types|
      invariant r.Keys == deg.Keys && forall x :: x in deg ==> r[x] == deg[x] - if x in types[..i] then 1 else 0
      invariant NoDup(ready) && forall x :: x in ready <==> x in types[..i] && x in deg && r[x] == 0
    {
      assert forall x :: x in types[..i + 1] <==> x in types[..i] || x == types[i];
      assert types[i] !in types[..i];
      if types[i] in r {
        r := r[types[i] := r[types[i]] - 1];
        if r[types[i]] == 0 {
          ready := ready + [types[i]];
        }
      }
    }
    assert types[..|types|] == types;
  }

  lemma TypesNext(es: seq<Entity>, i: nat)
    requires i < |es|
    ensures Elements(Types(es[..i + 1])) == Elements(Types(es[..i])) + {es[i].etype}
  {
    assert es[..i + 1] == es[..i] + [es[i]];
    TypesAppend(es[..i], [es[i]]);
    assert Types([es[i]]) == [es[i].etype];
    ElementsAppend(Types(es[..i]), [es[i].etype]);
    assert Elements([es[i].etype]) == {es[i].etype};
  }

  lemma OfTypeNext(es: seq<Entity>, i: nat, t: TypeName)
    requires i < |es|
    ensures OfType(es[..i + 1], t) == OfType(es[..i], t) + if es[i].etype == t then [es[i]] else []
  {
    assert es[..i + 1][..i] == es[..i];
  }

  method GroupByType(es: seq<Entity>) returns (groups: map<TypeName, seq<Entity>>)
    ensures groups.Keys == Elements(Types(es))
    ensures forall t :: t in groups ==> groups[t] == OfType(es, t)
  {
    groups := map[];
    for i := 0 to |es|
      invariant groups.Keys == Elements(Types(es[..i]))
      invariant forall t :: t in groups ==> groups[t] == OfType(es[..i], t)
      invariant forall t :: t !in groups ==> OfType(es[..i], t) == []
    {
      var e := es[i];
      TypesNext(es, i);
      forall t ensures OfType(es[..i + 1], t) == OfType(es[..i], t) + if e.etype == t then [e] else [] {
        OfTypeNext(es, i, t);
      }
      var group := if e.etype in groups then groups[e.etype] else [];
      groups := groups[e.etype := group + [e]];
    }
    assert es[..|es|] == es;
  }

  /** The text that ids are compared by: reflection prints the kind of a number, not the number. */
  function ToString(id: nat): string {
    "<uint Value>"
  }

  method SortEntitiesByID(es: seq<Entity>) returns (r: seq<Entity>)
    ensures |r| == |es| && multiset(r) == multiset(es)
  {
    r := Sort(es, (a: Entity, b: Entity) => LexLess(ToString(a.id), ToString(b.id)));
  }

  /** r holds exactly the entities of the given types. */
  ghost predicate TakenFrom(es: seq<Entity>, types: seq<TypeName>, r: seq<Entity>) {
    forall e :: multiset(r)[e] == if e.etype in types then multiset(es)[e] else 0
  }

  lemma GroupCounts(es: seq<Entity>, types: seq<TypeName>, t: TypeName, r: seq<Entity>, group: seq<Entity>)
    requires TakenFrom(es, types, r) && t !in types && multiset(group) == multiset(OfType(es, t))
    ensures TakenFrom(es, types + [t], r + group)
  {
    forall e ensures multiset(r + group)[e] == if e.etype in types + [t] then multiset(es)[e] else 0 {
      OfTypeCounts(es, t, e);
    }
  }

  lemma AllTaken(es: seq<Entity>, order: seq<TypeName>, r: seq<Entity>)
    requires TakenFrom(es, order, r) && Elements(order) == Elements(Types(es))
    ensures multiset(r) == multiset(es)
  {
    forall e ensures multiset(r)[e] == multiset(es)[e] {
      if e in es {
        var i :| 0 <= i < |es| && es[i] == e;
        assert Types(es)[i] in Elements(order);
      }
    }
  }

  /** Concatenate the groups in the order of their types. */
  method Assemble(es: seq<Entity>, order: seq<TypeName>, groups: map<TypeName, seq<Entity>>) returns (r: seq<Entity>)
    requires NoDup(order) && Elements(order) == groups.Keys == Elements(Types(es))
    requires forall t :: t in groups ==> groups[t] == OfType(es, t)
    ensures multiset(r) == multiset(es) && Types(r) == Expand(order, es)
  {
    r := [];
    ghost var done: seq<TypeName> := [];
    for k := 0 to |order|
      invariant done == order[..k]
      invariant Types(r) == Expand(done, es) && TakenFrom(es, done, r)
    {
      NextOne(order, k);
      var group := SortEntitiesByID(groups[order[k]]);
      GroupAppended(es, done, order[k], r, group);
      r := r + group;
      done := done + [order[k]];
    }
    assert done == order;
    AllTaken(es, order, r);
  }

  lemma NextOne(order: seq<TypeName>, k: nat)
    requires NoDup(order) && k < |order|
    ensures order[..k + 1] == order[..k] + [order[k]] && order[k] !in order[..k] && order[k] in Elements(order)
  {
  }

  lemma GroupAppended(es: seq<Entity>, done: seq<TypeName>, t: TypeName, r: seq<Entity>, group: seq<Entity>)
    requires Types(r) == Expand(done, es) && TakenFrom(es, done, r) && t !in done
    requires multiset(group) == multiset(OfType(es, t)) && |group| == |OfType(es, t)|
    ensures Types(r + group) == Expand(done + [t], es) && TakenFrom(es, done + [t], r + group)
  {
    OfTypeTypes(es, t, group);
    TypesAppend(r, group);
    ExpandNext(done, t, es);
    GroupCounts(es, done, t, r, group);
  }

  class DependencyManager {
    var graph: Graph
    var weights: Weights

    ghost predicate Valid()
      reads this
    {
      GraphOk(graph)
    }

    constructor ()
      ensures Valid() && graph == map[] && weights == map[]
    {
      graph, weights := map[], map[];
    }

    /** Adds exactly that edge, unless a type would depend on itself. */
    method RegisterDependency(dependent: TypeName, dependency: TypeName)
      requires Valid()
      modifies this`graph
      ensures Valid()
      ensures forall a, b :: Edge(graph, a, b) <==>
                old(Edge(graph, a, b)) || (a == dependency && b == dependent && a != b)
    {
      if dependent == dependency {
        return;
      }
      var dependents := if dependency in graph then graph[dependency] else [];
      if dependent in dependents {
        return;
      }
      graph := graph[dependency := dependents + [dependent]];
    }

    method RegisterEntityWeight(t: TypeName, weight: int)
      modifies this`weights
      ensures forall x :: WeightOf(weights, x) == if x == t then weight else old(WeightOf(weights, x))
    {
      weights := weights[t := weight];
    }

    /** Along edges when forward, against them in reverse. */
    method GetNeighbors(t: TypeName, reverse: bool) returns (r: seq<TypeName>)
      requires Valid()
      ensures NoDup(r)
      ensures forall x :: x in r <==> if reverse then Edge(graph, x, t) else Edge(graph, t, x)
    {
      if !reverse {
        return if t in graph then graph[t] else [];
      }
      var keys := SomeOrder(graph);
      r := [];
      for i := 0 to |keys|
        invariant NoDup(r) && forall x :: x in r <==> x in keys[..i] && Edge(graph, x, t)
      {
        assert forall x :: x in keys[..i + 1] <==> x in keys[..i] || x == keys[i];
        assert keys[i] !in keys[..i] && keys[i] in Elements(keys);
        if t in graph[keys[i]] {
          r := r + [keys[i]];
        }
      }
      assert keys[..|keys|] == keys;
      forall x | Edge(graph, x, t) ensures x in r {
        assert x in Elements(keys);
      }
    }

    method CalculateInDegree(types: seq<TypeName>) returns (deg: Degrees)
      requires Valid()
      ensures deg.Keys == Elements(types)
      ensures forall x :: x in Elements(types) ==> deg[x] == |Preds(graph, Elements(types), x)|
    {
      ghost var s := Elements(types);
      deg := map x | x in types :: 0;
      var keys := SomeOrder(graph);
      for i := 0 to |keys|
        invariant Counted(deg, graph, s, Elements(keys[..i]))
      {
        var d := keys[i];
        assert keys[..i + 1] == keys[..i] + [d];
        ElementsAppend(keys[..i], [d]);
        assert Elements([d]) == {d} && d !in keys[..i] && d in Elements(keys);
        ghost var was := deg;
        if d in deg {
          deg := CountAll(deg, graph[d]);
        }
        CountNext(was, graph, s, Elements(keys[..i]), d, deg);
      }
      assert keys[..|keys|] == keys;
      CountedAll(deg, graph, s, true);
    }

    method SortByWeight(types: seq<TypeName>) returns (r: seq<TypeName>)
      requires NoDup(types)
      ensures Arranged(weights, Elements(types), r)
    {
      r := Sort(types, ByWeight(weights));
      ByWeightIsOrder(weights);
      SortedMeansArranged(weights, types, r);
    }

    /** One turn of the queue loop: c leaves, and what it alone held back comes free. */
    method Turn(c: TypeName, deg: Degrees, ghost s: set<TypeName>, ghost done: set<TypeName>, reverse: bool)
      returns (next: Degrees, more: seq<TypeName>)
      requires Valid() && DegreesOk(deg, graph, s, done, reverse)
      requires c in Ready(graph, s, done, reverse) - done
      ensures DegreesOk(next, graph, s, done + {c}, reverse)
      ensures more == Arrange(weights, Released(graph, s, done, c, reverse))
    {
      var neighbors := GetNeighbors(c, reverse);
      var ready;
      next, ready := ReleaseAll(deg, neighbors);
      if reverse {
        ReleaseReverse(deg, graph, s, done, c, next);
      } else {
        ReleaseForward(deg, graph, s, done, c, next);
        forall x ensures x in Released(graph, s, done, c, false) <==> x in ready {
          ReleasedAre(graph, s, done, c, next, x);
        }
      }
      assert Elements(ready) == Released(graph, s, done, c, reverse);
      more := SortByWeight(ready);
      ArrangedOnce(weights, Elements(ready), more, Arrange(weights, Elements(ready)));
    }

    method FirstQueue(types: seq<TypeName>, deg: Degrees, reverse: bool) returns (queue: seq<TypeName>)
      requires NoDup(types) && DegreesOk(deg, graph, Elements(types), {}, reverse)
      ensures queue == Arrange(weights, Ready(graph, Elements(types), {}, reverse))
    {
      ghost var s := Elements(types);
      queue := [];
      for i := 0 to |types|
        invariant NoDup(queue) && forall x :: x in queue <==> x in types[..i] && x in Ready(graph, s, {}, reverse)
      {
        assert forall x :: x in types[..i + 1] <==> x in types[..i] || x == types[i];
        assert types[i] !in types[..i] && types[i] in s;
        ZeroIffEmpty(deg, graph, s, {}, reverse, types[i]);
        if deg[types[i]] == 0 {
          queue := queue + [types[i]];
        }
      }
      assert types[..|types|] == types;
      assert Elements(queue) == Ready(graph, s, {}, reverse);
      var found := queue;
      queue := SortByWeight(queue);
      ArrangedOnce(weights, Elements(found), queue, Arrange(weights, Elements(found)));
    }

    /** Kahn's loop over the types. */
    method SortTypes(types: seq<TypeName>, reverse: bool) returns (out: seq<TypeName>)
      requires Valid() && NoDup(types)
      ensures out == TypeOrder(graph, weights, Elements(types), reverse)
      ensures Progress(graph, Elements(types), out, [], reverse)
    {
      ghost var s := Elements(types);
      var deg := CalculateInDegree(types);
      CountsAreDegrees(deg, graph, s, reverse);
      var queue := FirstQueue(types, deg, reverse);
      out := [];
      ProgressStart(graph, weights, s, queue, reverse);
      ghost var done: set<TypeName> := {};
      while queue != []
        invariant Progress(graph, s, out, queue, reverse) && done == Elements(out)
        invariant DegreesOk(deg, graph, s, done, reverse)
        invariant Continue(graph, weights, s, out, queue, reverse) == TypeOrder(graph, weights, s, reverse)
        decreases |s| - |out|
      {
        NextIsReady(graph, s, out, queue, reverse);
        var more;
        deg, more := Turn(queue[0], deg, s, done, reverse);
        StepKeeps(graph, weights, s, out, queue, reverse, more);
        done := done + {queue[0]};
        out, queue := out + [queue[0]], queue[1..] + more;
      }
    }

    method TopologicalSort(es: seq<Entity>, reverse: bool) returns (r: Result<seq<Entity>, CycleError>)
      requires Valid()
      ensures r.Err? <==> if reverse then EdgeInside(graph, Elements(Types(es))) else HasCycle(graph, Elements(Types(es)))
      ensures r.Ok? ==> multiset(r.value) == multiset(es)
      ensures r.Ok? ==> Types(r.value) == Expand(TypeOrder(graph, weights, Elements(Types(es)), reverse), es)
      ensures r.Ok? && !reverse ==> DependenciesFirst(graph, Types(r.value))
    {
      ghost var s := Elements(Types(es));
      if es == [] {
        NothingToSort(graph, weights, reverse);
        return Ok(es);
      }
      var groups := GroupByType(es);
      var types := SomeOrder(groups);
      var order := SortTypes(types, reverse);
      NoDupCard(types);
      if reverse {
        DoneIffNoEdge(graph, s, order);
      } else {
        DoneIffAcyclic(graph, s, order);
      }
      if |order| != |types| {
        return Err(CircularDependency);
      }
      assert order + [] == order;
      var sorted := Assemble(es, order, groups);
      if !reverse {
        ExpandRespects(graph, s, order, es);
      }
      return Ok(sorted);
    }

    /** Fails exactly on a cycle; otherwise a permutation with every dependency first. */
    method GetInsertionOrder(es: seq<Entity>) returns (r: Result<seq<Entity>, CycleError>)
      requires Valid()
      ensures r.Err? <==> HasCycle(graph, Elements(Types(es)))
      ensures r.Ok? ==> multiset(r.value) == multiset(es) && DependenciesFirst(graph, Types(r.value))
      ensures r.Ok? ==> Types(r.value) == Expand(TypeOrder(graph, weights, Elements(Types(es)), false), es)
    {
      r := TopologicalSort(es, false);
    }

    /** Fails as soon as one type of the set depends on another; otherwise heavier types first. */
    method GetDeletionOrder(es: seq<Entity>) returns (r: Result<seq<Entity>, CycleError>)
      requires Valid()
      ensures r.Err? <==> EdgeInside(graph, Elements(Types(es)))
      ensures r.Ok? ==> multiset(r.value) == multiset(es)
      ensures r.Ok? ==> Types(r.value) == Reversed(Expand(Arrange(weights, Elements(Types(es))), es))
    {
      r := TopologicalSort(es, true);
      if r.Ok? {
        var reversed := Reverse(r.value);
        ReverseOrder(graph, weights, Elements(Types(es)));
        assert Types(reversed) == Reversed(Types(r.value));
        ReversedPermutes(r.value);
        r := Ok(reversed);
      }
    }
  }

  lemma NothingToSort(g: Graph, w: Weights, reverse: bool)
    ensures !HasCycle(g, {}) && !EdgeInside(g, {}) && TypeOrder(g, w, {}, reverse) == []
  {
    ElementsEmpty(Arrange(w, Ready(g, {}, {}, reverse)));
  }

  lemma CountsAreDegrees(deg: Degrees, g: Graph, s: set<TypeName>, reverse: bool)
    requires deg.Keys == s && forall x :: x in s ==> deg[x] == |Preds(g, s, x)|
    ensures DegreesOk(deg, g, s, {}, reverse)
  {
    forall x ensures Blockers(g, s, x, {}, reverse) == Preds(g, s, x) {
    }
  }

  lemma StepKeeps(g: Graph, w: Weights, s: set<TypeName>, out: seq<TypeName>, queue: seq<TypeName>, reverse: bool,
                  more: seq<TypeName>)
    requires Progress(g, s, out, queue, reverse) && queue != []
    requires more == Arrange(w, Released(g, s, Elements(out), queue[0], reverse))
    ensures Progress(g, s, out + [queue[0]], queue[1..] + more, reverse)
    ensures Continue(g, w, s, out, queue, reverse) == Continue(g, w, s, out + [queue[0]], queue[1..] + more, reverse)
    ensures Elements(out + [queue[0]]) == Elements(out) + {queue[0]} && |out| < |s|
  {
    QueueHasRoom(g, s, out, queue, reverse);
    ProgressStep(g, s, out, queue, reverse, more);
    ElementsAppend(out, [queue[0]]);
    assert Elements([queue[0]]) == {queue[0]};
  }

  lemma NextIsReady(g: Graph, s: set<TypeName>, out: seq<TypeName>, queue: seq<TypeName>, reverse: bool)
    requires Progress(g, s, out, queue, reverse) && queue != []
    ensures queue[0] in Ready(g, s, Elements(out), reverse) - Elements(out)
  {
    assert (out + queue)[|out|] in Elements(out + queue);
    assert forall i :: 0 <= i < |out| ==> (out + queue)[i] == out[i];
  }

  // ---------------------------------------------------------------------- reversal

  function Reversed<T>(s: seq<T>): (r: seq<T>)
    ensures |r| == |s| && forall i :: 0 <= i < |s| ==> r[i] == s[|s| - 1 - i]
  {
    seq(|s|, i requires 0 <= i < |s| => s[|s| - 1 - i])
  }

  lemma {:induction false} ReversedPermutes<T>(s: seq<T>)
    ensures multiset(Reversed(s)) == multiset(s)
  {
    if s != [] {
      var front, last := s[..|s| - 1], s[|s| - 1];
      ReversedPermutes(front);
      assert Reversed(s) == [last] + Reversed(front);
      assert s == front + [last];
    }
  }

  /** Swap ends, working inwards. */
  method Reverse<T>(s: seq<T>) returns (r: seq<T>)
    ensures r == Reversed(s)
  {
    r := s;
    for i := 0 to |s| / 2
      invariant |r| == |s|
      invariant forall k :: 0 <= k < i || |s| - i <= k < |s| ==> r[k] == s[|s| - 1 - k]
      invariant forall k :: i <= k < |s| - i ==> r[k] == s[k]
    {
      var j := |r| - 1 - i;
      r := r[i := r[j]][j := r[i]];
    }
  }

  /** Deletion refuses even the plainest acyclic pair: b depends on a. */
  lemma DeletionRefusesAcyclic(a: TypeName, b: TypeName)
    requires a != b
    ensures var g: Graph := map[a := [b]]; GraphOk(g) && EdgeInside(g, {a, b}) && !HasCycle(g, {a, b})
  {
    var g: Graph := map[a := [b]];
    assert Edge(g, a, b);
    assert Preds(g, {a, b}, a) == {};
    assert [a, b][..1] == [a];
    assert Elements([a, b]) == {a, b};
    RespectfulMeansAcyclic(g, {a, b}, [a, b]);
  }
}
