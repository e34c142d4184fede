/** The order of the topological sort in full: by the last dependency that came out, then by weight and name. */
module ReleaseOrder {
  import opened Base
  import opened Sorting
  import opened DependencyGraph
  import opened KahnOrder

  // ------------------------------------------------------------------- weight and name

  /** a comes first in a dictionary: it is a proper prefix of b, or smaller where they first differ. */
  ghost predicate InDictionary(a: string, b: string) {
    a < b || exists i :: 0 <= i < |a| && i < |b| && a[..i] == b[..i] && a[i] < b[i]
  }

  lemma {:induction false} LexLessIff(a: string, b: string)
    ensures LexLess(a, b) <==> InDictionary(a, b)
  {
    if a != [] && b != [] {
      LexLessIff(a[1..], b[1..]);
      assert a == [a[0]] + a[1..] && b == [b[0]] + b[1..];
      if LexLess(a, b) {
        LexForward(a, b);
      }
      if InDictionary(a, b) {
        LexBackward(a, b);
      }
    }
  }

  lemma LexForward(a: string, b: string)
    requires a != [] && b != [] && (a[0] < b[0] || (a[0] == b[0] && InDictionary(a[1..], b[1..])))
    ensures InDictionary(a, b)
  {
    if a[0] < b[0] {
      assert a[..0] == b[..0];
    } else if a[1..] < b[1..] {
      assert a == [a[0]] + a[1..] && b == [b[0]] + b[1..];
    } else {
      var i :| 0 <= i < |a[1..]| && i < |b[1..]| && a[1..][..i] == b[1..][..i] && a[1..][i] < b[1..][i];
      assert a[..i + 1] == [a[0]] + a[1..][..i] && b[..i + 1] == [b[0]] + b[1..][..i];
    }
  }

  lemma LexBackward(a: string, b: string)
    requires a != [] && b != [] && InDictionary(a, b)
    ensures a[0] < b[0] || (a[0] == b[0] && InDictionary(a[1..], b[1..]))
  {
    if a < b {
      assert a[1..] < b[1..];
    } else {
      var i :| 0 <= i < |a| && i < |b| && a[..i] == b[..i] && a[i] < b[i];
      if i > 0 {
        assert a[..i][0] == b[..i][0];
        assert a[1..][..i - 1] == a[..i][1..] && b[1..][..i - 1] == b[..i][1..];
        assert a[1..][i - 1] < b[1..][i - 1];
      }
    }
  }

  /** The smaller weight first, 0 where none was registered; among equal weights in the order of a dictionary. */
  lemma LighterFirst(w: Weights, a: TypeName, b: TypeName)
    ensures var x, y := if a in w then w[a] else 0, if b in w then w[b] else 0;
      ByWeight(w)(a, b) <==> x < y || (x == y && InDictionary(a, b))
  {
    LexLessIff(a, b);
  }

  // ------------------------------------------------------------------------ release

  /** The place in out of the last dependency of x within s, -1 where there is none. */
  ghost function LastDependency(g: Graph, s: set<TypeName>, out: seq<TypeName>, x: TypeName): int {
    if out == [] then -1
    else if out[|out| - 1] in Preds(g, s, x) then |out| - 1
    else LastDependency(g, s, out[..|out| - 1], x)
  }

  lemma {:induction false} LastDependencyIs(g: Graph, s: set<TypeName>, out: seq<TypeName>, x: TypeName)
    ensures var k := LastDependency(g, s, out, x);
      && -1 <= k < |out| && (k >= 0 ==> out[k] in Preds(g, s, x))
      && forall i :: k < i < |out| ==> out[i] !in Preds(g, s, x)
  {
    if out != [] && out[|out| - 1] !in Preds(g, s, x) {
      LastDependencyIs(g, s, out[..|out| - 1], x);
    }
  }

  lemma LastDependencyNext(g: Graph, s: set<TypeName>, out: seq<TypeName>, c: TypeName, x: TypeName)
    ensures LastDependency(g, s, out + [c], x) == if c in Preds(g, s, x) then |out| else LastDependency(g, s, out, x)
  {
    assert (out + [c])[..|out|] == out;
  }

  /** x comes before y: its last dependency came out earlier, or with the same one it is lighter. */
  ghost predicate Sooner(g: Graph, w: Weights, s: set<TypeName>, out: seq<TypeName>, x: TypeName, y: TypeName) {
    var i, j := LastDependency(g, s, out, x), LastDependency(g, s, out, y);
    i < j || (i == j && ByWeight(w)(x, y))
  }

  ghost predicate InReleaseOrder(g: Graph, w: Weights, s: set<TypeName>, out: seq<TypeName>, all: seq<TypeName>) {
    forall i, j :: 0 <= i < j < |all| ==> Sooner(g, w, s, out, all[i], all[j])
  }

  /** Those already listed wait for nothing more, so the next type out changes nothing for them. */
  lemma ListedStay(g: Graph, s: set<TypeName>, out: seq<TypeName>, c: TypeName, x: TypeName)
    requires x in Ready(g, s, Elements(out), false) && c !in out
    ensures LastDependency(g, s, out + [c], x) == LastDependency(g, s, out, x) < |out|
  {
    LastDependencyIs(g, s, out, x);
    LastDependencyNext(g, s, out, c, x);
    assert c in Preds(g, s, x) ==> c in Preds(g, s, x) - Elements(out);
  }

  lemma ReleasedByTheLast(g: Graph, s: set<TypeName>, out: seq<TypeName>, c: TypeName, x: TypeName)
    requires x in Released(g, s, Elements(out), c, false)
    ensures LastDependency(g, s, out + [c], x) == |out|
  {
    LastDependencyNext(g, s, out, c, x);
    assert Preds(g, s, x) - (Elements(out) + {c}) == {};
    assert c !in Preds(g, s, x) ==> Preds(g, s, x) - Elements(out) == Preds(g, s, x) - (Elements(out) + {c});
  }

  lemma ReleaseStep(g: Graph, w: Weights, s: set<TypeName>, out: seq<TypeName>, all: seq<TypeName>, c: TypeName, more: seq<TypeName>)
    requires InReleaseOrder(g, w, s, out, all) && Elements(all) == Ready(g, s, Elements(out), false) && c !in out
    requires Arranged(w, Released(g, s, Elements(out), c, false), more)
    ensures InReleaseOrder(g, w, s, out + [c], all + more)
  {
    var now, joined := out + [c], all + more;
    forall k | 0 <= k < |all| ensures LastDependency(g, s, now, all[k]) == LastDependency(g, s, out, all[k]) < |out| {
      assert all[k] in Elements(all);
      ListedStay(g, s, out, c, all[k]);
    }
    forall k | 0 <= k < |more| ensures LastDependency(g, s, now, more[k]) == |out| {
      assert more[k] in Elements(more);
      ReleasedByTheLast(g, s, out, c, more[k]);
    }
    forall i, j | 0 <= i < j < |joined| ensures Sooner(g, w, s, now, joined[i], joined[j]) {
      if j < |all| {
        assert Sooner(g, w, s, out, all[i], all[j]);
      } else if i >= |all| {
        SortedStrictly(w, more, i - |all|, j - |all|);
      }
    }
  }

  lemma SortedStrictly(w: Weights, r: seq<TypeName>, i: nat, j: nat)
    requires NoDup(r) && Ordered(r, ByWeight(w)) && i < j < |r|
    ensures ByWeight(w)(r[i], r[j])
  {
    ByWeightTotal(w, r[i], r[j]);
  }

  lemma ReleaseStart(g: Graph, w: Weights, s: set<TypeName>, queue: seq<TypeName>)
    requires NoDup(queue) && Ordered(queue, ByWeight(w))
    ensures InReleaseOrder(g, w, s, [], queue)
  {
    forall i, j | 0 <= i < j < |queue| ensures Sooner(g, w, s, [], queue[i], queue[j]) {
      SortedStrictly(w, queue, i, j);
    }
  }

  lemma {:induction false} ContinueInOrder(g: Graph, w: Weights, s: set<TypeName>, out: seq<TypeName>, queue: seq<TypeName>)
    requires Progress(g, s, out, queue, false) && InReleaseOrder(g, w, s, out, out + queue)
    ensures var r := Continue(g, w, s, out, queue, false); InReleaseOrder(g, w, s, r, r)
    decreases |s| - |out|
  {
    QueueHasRoom(g, s, out, queue, false);
    if queue == [] {
      assert out + queue == out;
    } else {
      var c := queue[0];
      var more := Arrange(w, Released(g, s, Elements(out), c, false));
      assert (out + queue)[|out|] == c && forall i :: 0 <= i < |out| ==> (out + queue)[i] == out[i];
      ReleaseStep(g, w, s, out, out + queue, c, more);
      assert (out + [c]) + (queue[1..] + more) == (out + queue) + more;
      ProgressStep(g, s, out, queue, false, more);
      ContinueInOrder(g, w, s, out + [c], queue[1..] + more);
    }
  }

  /**
   * The types come out by the place of their last dependency, those without one first, and among those
   * that were released together by weight and name.
   */
  lemma TypesInReleaseOrder(g: Graph, w: Weights, s: set<TypeName>)
    ensures var out := TypeOrder(g, w, s, false); InReleaseOrder(g, w, s, out, out)
  {
    var queue := Arrange(w, Ready(g, s, {}, false));
    ProgressStart(g, w, s, queue, false);
    ReleaseStart(g, w, s, queue);
    assert [] + queue == queue;
    ContinueInOrder(g, w, s, [], queue);
  }
}
