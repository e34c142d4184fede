/** Dependency edges between entity types, cycles among them, and orders that respect them. */
module DependencyGraph {
  import opened Base

  /** An entity type; types are told apart by their printed names. */
  type TypeName = string

  /** For each type, the types that depend on it. */
  type Graph = map<TypeName, seq<TypeName>>

  predicate Edge(g: Graph, dependency: TypeName, dependent: TypeName) {
    dependency in g && dependent in g[dependency]
  }

  /** No type is listed twice under another, and none under itself. */
  ghost predicate GraphOk(g: Graph) {
    forall a :: a in g ==> NoDup(g[a]) && a !in g[a]
  }

  /** The types among s that x depends on. */
  ghost function Preds(g: Graph, s: set<TypeName>, x: TypeName): set<TypeName> {
    set a | a in s && Edge(g, a, x)
  }

  // ----------------------------------------------------------------------- cycles

  ghost predicate IsWalk(g: Graph, s: set<TypeName>, p: seq<TypeName>) {
    && (forall i :: 0 <= i < |p| ==> p[i] in s)
    && (forall i :: 0 <= i < |p| - 1 ==> Edge(g, p[i], p[i + 1]))
  }

  ghost predicate IsCycle(g: Graph, s: set<TypeName>, p: seq<TypeName>) {
    |p| >= 2 && p[0] == p[|p| - 1] && IsWalk(g, s, p)
  }

  ghost predicate HasCycle(g: Graph, s: set<TypeName>) {
    exists p :: IsCycle(g, s, p)
  }

  /** Where everyone depends on someone, walks can be as long as one likes. */
  lemma {:induction false} LongWalk(g: Graph, s: set<TypeName>, n: nat) returns (p: seq<TypeName>)
    requires s != {} && forall x :: x in s ==> Preds(g, s, x) != {}
    ensures |p| == n + 1 && IsWalk(g, s, p)
  {
    if n == 0 {
      var x :| x in s;
      p := [x];
    } else {
      var q := LongWalk(g, s, n - 1);
      assert q[0] in s;
      var a :| a in Preds(g, s, q[0]);
      p := [a] + q;
      forall i | 0 <= i < |p| - 1 ensures Edge(g, p[i], p[i + 1]) {
        assert i > 0 ==> p[i] == q[i - 1] && p[i + 1] == q[i];
      }
    }
  }

  lemma Pigeonhole(s: set<TypeName>, p: seq<TypeName>) returns (i: nat, j: nat)
    requires |p| > |s| && forall i :: 0 <= i < |p| ==> p[i] in s
    ensures i < j < |p| && p[i] == p[j]
  {
    if NoDup(p) {
      NoDupCard(p);
      SubsetCard(Elements(p), s);
    }
    i, j :| 0 <= i < j < |p| && p[i] == p[j];
  }

  /** A set in which everyone depends on someone in the set contains a cycle. */
  lemma StuckSetHasCycle(g: Graph, s: set<TypeName>, stuck: set<TypeName>)
    requires stuck != {} && stuck <= s && forall x :: x in stuck ==> Preds(g, stuck, x) != {}
    ensures HasCycle(g, s)
  {
    var p := LongWalk(g, stuck, |stuck|);
    var i, j := Pigeonhole(stuck, p);
    var c := p[i..j + 1];
    forall k | 0 <= k < |c| - 1 ensures Edge(g, c[k], c[k + 1]) {
      assert c[k] == p[i + k] && c[k + 1] == p[i + k + 1];
    }
    assert IsCycle(g, s, c);
  }

  // ----------------------------------------------------------------------- orders

  /** Each type comes after all it depends on. */
  ghost predicate Respects(g: Graph, s: set<TypeName>, order: seq<TypeName>) {
    forall i :: 0 <= i < |order| ==> Preds(g, s, order[i]) <= Elements(order[..i])
  }

  /** x occurs before position i. */
  ghost predicate Before(order: seq<TypeName>, x: TypeName, i: int) {
    exists k :: 0 <= k < |order| && k < i && order[k] == x
  }

  lemma {:induction false} WalksMoveForward(g: Graph, s: set<TypeName>, order: seq<TypeName>, p: seq<TypeName>, i: nat)
    requires NoDup(order) && Elements(order) == s && Respects(g, s, order)
    requires IsWalk(g, s, p) && |p| >= 2 && i < |order| && order[i] == p[|p| - 1]
    ensures Before(order, p[0], i)
    decreases |p|
  {
    var n := |p| - 1;
    assert Edge(g, p[n - 1], p[n]);
    assert p[n - 1] in Preds(g, s, order[i]);
    assert p[n - 1] in Elements(order[..i]);
    var k :| 0 <= k < i && order[..i][k] == p[n - 1];
    assert order[k] == p[n - 1];
    if n > 1 {
      assert IsWalk(g, s, p[..n]);
      WalksMoveForward(g, s, order, p[..n], k);
    }
  }

  /** An order that respects all dependencies leaves no room for a cycle. */
  lemma RespectfulMeansAcyclic(g: Graph, s: set<TypeName>, order: seq<TypeName>)
    requires NoDup(order) && Elements(order) == s && Respects(g, s, order)
    ensures !HasCycle(g, s)
  {
    if HasCycle(g, s) {
      var p :| IsCycle(g, s, p);
      assert p[0] in Elements(order);
      var i :| 0 <= i < |order| && order[i] == p[0];
      WalksMoveForward(g, s, order, p, i);
      assert false;
    }
  }
}
