/** The order that Kahn's algorithm settles on (unitofwork/dependency.go:71-206). */
module KahnOrder {
  import opened Base
  import opened Sorting
  import opened DependencyGraph

  // ------------------------------------------------------------------ sorting types

  /** Comparison of strings, character by character. */
  predicate LexLess(a: string, b: string) {
    b != [] && (a == [] || a[0] < b[0] || (a[0] == b[0] && LexLess(a[1..], b[1..])))
  }

  lemma {:induction false} LexTotal(a: string, b: string)
    ensures LexLess(a, b) <==> a != b && !LexLess(b, a)
  {
    if a != [] && b != [] {
      LexTotal(a[1..], b[1..]);
      assert a == [a[0]] + a[1..] && b == [b[0]] + b[1..];
    }
  }

  lemma {:induction false} LexTransitive(a: string, b: string, c: string)
    requires LexLess(a, b) && LexLess(b, c)
    ensures LexLess(a, c)
  {
    if a != [] && a[0] == b[0] == c[0] {
      LexTransitive(a[1..], b[1..], c[1..]);
    }
  }

  type Weights = map<TypeName, int>

  function WeightOf(w: Weights, t: TypeName): int {
    if t in w then w[t] else 0
  }

  /** Lighter first; by name among equals. */
  function ByWeight(w: Weights): (TypeName, TypeName) -> bool {
    (a, b) => if WeightOf(w, a) != WeightOf(w, b) then WeightOf(w, a) < WeightOf(w, b) else LexLess(a, b)
  }

  lemma ByWeightTotal(w: Weights, a: TypeName, b: TypeName)
    ensures ByWeight(w)(a, b) <==> a != b && !ByWeight(w)(b, a)
  {
    LexTotal(a, b);
  }

  lemma ByWeightTransitive(w: Weights, a: TypeName, b: TypeName, c: TypeName)
    requires ByWeight(w)(a, b) && ByWeight(w)(b, c)
    ensures ByWeight(w)(a, c)
  {
    if WeightOf(w, a) == WeightOf(w, b) == WeightOf(w, c) {
      LexTransitive(a, b, c);
    }
  }

  lemma ByWeightIsOrder(w: Weights)
    ensures IsOrder(ByWeight(w))
  {
    var less := ByWeight(w);
    forall x ensures !less(x, x) {
      ByWeightTotal(w, x, x);
    }
    forall x, y, z | less(x, y) && less(y, z) ensures less(x, z) {
      ByWeightTransitive(w, x, y, z);
    }
    forall x, y, z | less(x, y) ensures less(x, z) || less(z, y) {
      if !less(x, z) && !less(z, y) {
        ByWeightTotal(w, x, z);
        ByWeightTotal(w, z, y);
        if x != z && z != y {
          ByWeightTransitive(w, z, x, y);
        }
      }
    }
  }

  ghost predicate Arranged(w: Weights, s: set<TypeName>, r: seq<TypeName>) {
    NoDup(r) && Elements(r) == s && Ordered(r, ByWeight(w))
  }

  /** There is only one way to sort a set of types. */
  lemma {:induction false} ArrangedOnce(w: Weights, s: set<TypeName>, q: seq<TypeName>, r: seq<TypeName>)
    requires Arranged(w, s, q) && Arranged(w, s, r)
    ensures q == r
    decreases |q|
  {
    ElementsEmpty(q);
    ElementsEmpty(r);
    if q != [] {
      assert q[0] in Elements(r) && r[0] in Elements(q);
      ByWeightTotal(w, q[0], r[0]);
      assert q[0] == r[0];
      ArrangedTail(w, s, q);
      ArrangedTail(w, s, r);
      ArrangedOnce(w, s - {q[0]}, q[1..], r[1..]);
      assert q == [q[0]] + q[1..] && r == [r[0]] + r[1..];
    }
  }

  lemma ArrangedTail(w: Weights, s: set<TypeName>, r: seq<TypeName>)
    requires Arranged(w, s, r) && r != []
    ensures Arranged(w, s - {r[0]}, r[1..])
  {
    assert forall x :: x in r <==> x == r[0] || x in r[1..];
  }

  lemma {:induction false} CanArrange(w: Weights, s: set<TypeName>)
    ensures exists r :: Arranged(w, s, r)
    decreases |s|
  {
    if s == {} {
      assert Arranged(w, s, []);
    } else {
      var x :| x in s;
      CanArrange(w, s - {x});
      var q :| Arranged(w, s - {x}, q);
      ByWeightIsOrder(w);
      PlacePermutes(x, q, ByWeight(w));
      PlaceOrders(x, q, ByWeight(w));
      SortedMeansArranged(w, q + [x], Place(x, q, ByWeight(w)));
      ElementsAppend(q, [x]);
      assert Elements([x]) == {x};
      assert (s - {x}) + {x} == s;
    }
  }

  lemma SortedMeansArranged(w: Weights, q: seq<TypeName>, r: seq<TypeName>)
    requires NoDup(q) && multiset(q) == multiset(r) && Ordered(r, ByWeight(w))
    ensures Arranged(w, Elements(q), r)
  {
    SamePermutation(q, r);
  }

  /** The types of s, sorted. */
  ghost function Arrange(w: Weights, s: set<TypeName>): (r: seq<TypeName>)
    ensures Arranged(w, s, r)
  {
    CanArrange(w, s);
    var r :| Arranged(w, s, r);
    r
  }

  // ------------------------------------------------------------------------- Kahn

  /** What still holds x back once the types in done are out; nothing is released in reverse. */
  ghost function Blockers(g: Graph, s: set<TypeName>, x: TypeName, done: set<TypeName>, reverse: bool): set<TypeName> {
    if reverse then Preds(g, s, x) else Preds(g, s, x) - done
  }

  ghost function Ready(g: Graph, s: set<TypeName>, done: set<TypeName>, reverse: bool): set<TypeName> {
    set x | x in s && Blockers(g, s, x, done, reverse) == {}
  }

  /** The types that become ready when c leaves the queue. */
  ghost function Released(g: Graph, s: set<TypeName>, done: set<TypeName>, c: TypeName, reverse: bool): set<TypeName> {
    Ready(g, s, done + {c}, reverse) - Ready(g, s, done, reverse)
  }

  ghost function Continue(g: Graph, w: Weights, s: set<TypeName>, out: seq<TypeName>, queue: seq<TypeName>, reverse: bool): seq<TypeName>
    decreases |s| - |out|
  {
    if queue == [] || |out| >= |s| then out else
    Continue(g, w, s, out + [queue[0]],
             queue[1..] + Arrange(w, Released(g, s, Elements(out), queue[0], reverse)), reverse)
  }

  /** The order of the types in s: it depends on the set alone, not on how maps are traversed. */
  ghost function TypeOrder(g: Graph, w: Weights, s: set<TypeName>, reverse: bool): seq<TypeName> {
    Continue(g, w, s, [], Arrange(w, Ready(g, s, {}, reverse)), reverse)
  }

  ghost predicate Progress(g: Graph, s: set<TypeName>, out: seq<TypeName>, queue: seq<TypeName>, reverse: bool) {
    && NoDup(out + queue)
    && Elements(out + queue) == Ready(g, s, Elements(out), reverse)
    && (!reverse ==> Respects(g, s, out))
  }

  lemma QueueHasRoom(g: Graph, s: set<TypeName>, out: seq<TypeName>, queue: seq<TypeName>, reverse: bool)
    requires Progress(g, s, out, queue, reverse)
    ensures |out| + |queue| <= |s|
  {
    NoDupCard(out + queue);
    SubsetCard(Elements(out + queue), s);
  }

  lemma ReadyGrows(g: Graph, s: set<TypeName>, done: set<TypeName>, c: TypeName, reverse: bool)
    ensures Ready(g, s, done, reverse) <= Ready(g, s, done + {c}, reverse)
  {
    forall x | x in Ready(g, s, done, reverse) ensures x in Ready(g, s, done + {c}, reverse) {
      assert Blockers(g, s, x, done + {c}, reverse) <= Blockers(g, s, x, done, reverse);
    }
  }

  lemma ProgressStep(g: Graph, s: set<TypeName>, out: seq<TypeName>, queue: seq<TypeName>, reverse: bool,
                     more: seq<TypeName>)
    requires Progress(g, s, out, queue, reverse) && queue != []
    requires NoDup(more) && Elements(more) == Released(g, s, Elements(out), queue[0], reverse)
    ensures Progress(g, s, out + [queue[0]], queue[1..] + more, reverse)
  {
    var c := queue[0];
    var all := out + queue;
    assert (out + [c]) + (queue[1..] + more) == all + more;
    ElementsAppend(all, more);
    ElementsAppend(out, [c]);
    assert Elements([c]) == {c};
    ReadyGrows(g, s, Elements(out), c, reverse);
    AppendNoDup(all, more);
    if !reverse {
      assert c == all[|out|] && c in Elements(all);
      assert Preds(g, s, c) - Elements(out) == {};
      DifferenceEmpty(Preds(g, s, c), Elements(out));
      RespectsNext(g, s, out, c);
    }
  }

  lemma AppendNoDup(a: seq<TypeName>, b: seq<TypeName>)
    requires NoDup(a) && NoDup(b) && Elements(a) !! Elements(b)
    ensures NoDup(a + b)
  {
    assert forall i :: 0 <= i < |a| ==> a[i] in Elements(a);
    assert forall i :: 0 <= i < |b| ==> b[i] in Elements(b);
  }

  lemma RespectsNext(g: Graph, s: set<TypeName>, out: seq<TypeName>, c: TypeName)
    requires Respects(g, s, out) && Preds(g, s, c) <= Elements(out)
    ensures Respects(g, s, out + [c])
  {
    forall i | 0 <= i < |out + [c]| ensures Preds(g, s, (out + [c])[i]) <= Elements((out + [c])[..i]) {
      assert (out + [c])[..i] == out[..i];
      assert i == |out| ==> out[..i] == out;
    }
  }

  lemma ProgressStart(g: Graph, w: Weights, s: set<TypeName>, queue: seq<TypeName>, reverse: bool)
    requires Arranged(w, Ready(g, s, {}, reverse), queue)
    ensures Progress(g, s, [], queue, reverse)
  {
    assert [] + queue == queue;
    assert Elements<TypeName>([]) == {};
  }

  /** When the queue runs dry, what came out is complete exactly if nothing is circular. */
  lemma DoneIffAcyclic(g: Graph, s: set<TypeName>, out: seq<TypeName>)
    requires Progress(g, s, out, [], false)
    ensures |out| == |s| <==> !HasCycle(g, s)
    ensures |out| == |s| ==> Elements(out) == s
  {
    assert out + [] == out;
    NoDupCard(out);
    SubsetCard(Elements(out), s);
    if |out| == |s| {
      RespectfulMeansAcyclic(g, s, out);
    } else {
      var stuck := s - Elements(out);
      DifferenceEmpty(s, Elements(out));
      assert Elements(out) != s;
      forall x | x in stuck ensures Preds(g, stuck, x) != {} {
        var a :| a in Preds(g, s, x) - Elements(out);
        assert a in Preds(g, stuck, x);
      }
      StuckSetHasCycle(g, s, stuck);
    }
  }

  ghost predicate EdgeInside(g: Graph, s: set<TypeName>) {
    exists a, b :: a in s && b in s && Edge(g, a, b)
  }

  /** In reverse, whatever depends on something in the set stays stuck. */
  lemma DoneIffNoEdge(g: Graph, s: set<TypeName>, out: seq<TypeName>)
    requires Progress(g, s, out, [], true)
    ensures |out| == |s| <==> !EdgeInside(g, s)
    ensures |out| == |s| ==> Elements(out) == s
  {
    assert out + [] == out;
    NoDupCard(out);
    SubsetCard(Elements(out), s);
    if EdgeInside(g, s) {
      var a, b :| a in s && b in s && Edge(g, a, b);
      assert a in Preds(g, s, b);
      assert b !in Ready(g, s, Elements(out), true);
    } else {
      forall x | x in s ensures x in Elements(out) {
        assert Preds(g, s, x) == {};
      }
      assert Elements(out) == s;
    }
  }

  /** In reverse nothing is ever released, so the order is that of the weights alone. */
  lemma {:induction false} ReverseContinue(g: Graph, w: Weights, s: set<TypeName>, out: seq<TypeName>, queue: seq<TypeName>)
    requires |out| + |queue| <= |s|
    ensures Continue(g, w, s, out, queue, true) == out + queue
    decreases |queue|
  {
    if queue == [] {
      assert out + queue == out;
    } else {
      var more := Arrange(w, Released(g, s, Elements(out), queue[0], true));
      assert Released(g, s, Elements(out), queue[0], true) == {};
      ElementsEmpty(more);
      assert queue[1..] + more == queue[1..];
      ReverseContinue(g, w, s, out + [queue[0]], queue[1..]);
      assert (out + [queue[0]]) + queue[1..] == out + queue;
    }
  }

  lemma ReverseOrder(g: Graph, w: Weights, s: set<TypeName>)
    requires !EdgeInside(g, s)
    ensures TypeOrder(g, w, s, true) == Arrange(w, s)
  {
    assert Ready(g, s, {}, true) == s by {
      forall x | x in s ensures Preds(g, s, x) == {} {
      }
    }
    var q := Arrange(w, s);
    NoDupCard(q);
    ReverseContinue(g, w, s, [], q);
    assert [] + q == q;
  }

  // ------------------------------------------------------------------------ counts

  type Degrees = map<TypeName, int>

  ghost predicate DegreesOk(deg: Degrees, g: Graph, s: set<TypeName>, done: set<TypeName>, reverse: bool) {
    deg.Keys == s && forall x :: x in s ==> deg[x] == |Blockers(g, s, x, done, reverse)|
  }

  /** Counts so far, when only the edges out of seen have been counted. */
  ghost predicate Counted(deg: Degrees, g: Graph, s: set<TypeName>, seen: set<TypeName>) {
    deg.Keys == s && forall x :: x in s ==> deg[x] == |Preds(g, seen * s, x)|
  }

  lemma AddBlocker(g: Graph, s: set<TypeName>, seen: set<TypeName>, d: TypeName, x: TypeName)
    requires d !in seen
    ensures |Preds(g, (seen + {d}) * s, x)| == |Preds(g, seen * s, x)| + if d in s && Edge(g, d, x) then 1 else 0
  {
    if d in s && Edge(g, d, x) {
      assert Preds(g, (seen + {d}) * s, x) == Preds(g, seen * s, x) + {d};
    } else {
      assert Preds(g, (seen + {d}) * s, x) == Preds(g, seen * s, x);
    }
  }

  lemma CountNext(deg: Degrees, g: Graph, s: set<TypeName>, seen: set<TypeName>, d: TypeName, next: Degrees)
    requires Counted(deg, g, s, seen) && d !in seen && next.Keys == s
    requires forall x :: x in s ==> next[x] == deg[x] + if d in s && Edge(g, d, x) then 1 else 0
    ensures Counted(next, g, s, seen + {d})
  {
    forall x | x in s ensures next[x] == |Preds(g, (seen + {d}) * s, x)| {
      AddBlocker(g, s, seen, d, x);
    }
  }

  lemma CountedAll(deg: Degrees, g: Graph, s: set<TypeName>, reverse: bool)
    requires Counted(deg, g, s, g.Keys)
    ensures DegreesOk(deg, g, s, {}, reverse)
  {
    forall x | x in s ensures deg[x] == |Blockers(g, s, x, {}, reverse)| {
      assert Preds(g, g.Keys * s, x) == Preds(g, s, x) == Blockers(g, s, x, {}, reverse);
    }
  }

  lemma ZeroIffEmpty(deg: Degrees, g: Graph, s: set<TypeName>, done: set<TypeName>, reverse: bool, x: TypeName)
    requires DegreesOk(deg, g, s, done, reverse) && x in s
    ensures deg[x] == 0 <==> x in Ready(g, s, done, reverse)
  {
  }

  lemma ReleaseOne(g: Graph, s: set<TypeName>, done: set<TypeName>, c: TypeName, x: TypeName)
    requires c in s - done
    ensures var was, now := Blockers(g, s, x, done, false), Blockers(g, s, x, done + {c}, false);
            |now| == |was| - (if Edge(g, c, x) then 1 else 0)
    ensures var was, now := Blockers(g, s, x, done, false), Blockers(g, s, x, done + {c}, false);
            was != {} && now == {} <==> Edge(g, c, x) && |now| == 0
  {
    var was, now := Blockers(g, s, x, done, false), Blockers(g, s, x, done + {c}, false);
    assert now == was - {c};
    assert c in was <==> Edge(g, c, x);
  }

  /** The counts stay right when one more type leaves the queue. */
  lemma ReleaseForward(deg: Degrees, g: Graph, s: set<TypeName>, done: set<TypeName>, c: TypeName, next: Degrees)
    requires DegreesOk(deg, g, s, done, false) && c in s - done && next.Keys == s
    requires forall x :: x in s ==> next[x] == deg[x] - if Edge(g, c, x) then 1 else 0
    ensures DegreesOk(next, g, s, done + {c}, false)
  {
    forall x | x in s ensures next[x] == |Blockers(g, s, x, done + {c}, false)| {
      ReleaseOne(g, s, done, c, x);
    }
  }

  lemma ReleasedAre(g: Graph, s: set<TypeName>, done: set<TypeName>, c: TypeName, next: Degrees, x: TypeName)
    requires DegreesOk(next, g, s, done + {c}, false) && c in s - done
    ensures x in Released(g, s, done, c, false) <==> Edge(g, c, x) && x in s && next[x] == 0
  {
    ReleaseOne(g, s, done, c, x);
  }

  lemma ReleaseReverse(deg: Degrees, g: Graph, s: set<TypeName>, done: set<TypeName>, c: TypeName, next: Degrees)
    requires DegreesOk(deg, g, s, done, true) && c in Ready(g, s, done, true) && next.Keys == s
    requires forall x :: x in s ==> next[x] == deg[x] - if Edge(g, x, c) then 1 else 0
    ensures DegreesOk(next, g, s, done + {c}, true)
    ensures Released(g, s, done, c, true) == {} && forall x :: x in s ==> !Edge(g, x, c)
  {
    forall x | x in s ensures !Edge(g, x, c) {
      assert x !in Preds(g, s, c);
    }
  }
}
