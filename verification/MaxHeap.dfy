/** The binary heap of Go's container/heap, with the largest key at the front. */
module MaxHeap {
  function Parent(j: nat): nat
    requires 0 < j
  {
    (j - 1) / 2
  }

  function Swapped<T>(h: seq<T>, i: nat, j: nat): seq<T>
    requires i < |h| && j < |h|
  {
    h[i := h[j]][j := h[i]]
  }

  /** Move the element at j up while it outdoes its parent. */
  function Up<T>(h: seq<T>, key: T -> int, j: nat): (r: seq<T>)
    requires j < |h|
    ensures |r| == |h|
    decreases j
  {
    if j == 0 || key(h[j]) <= key(h[Parent(j)]) then h
    else Up(Swapped(h, Parent(j), j), key, Parent(j))
  }

  /** The child of i with the larger key, the left one if neither is larger. */
  function Child<T>(h: seq<T>, key: T -> int, i: nat): nat
    requires 2 * i + 1 < |h|
  {
    if 2 * i + 2 < |h| && key(h[2 * i + 2]) > key(h[2 * i + 1]) then 2 * i + 2 else 2 * i + 1
  }

  /** Move the element at i down while a child outdoes it. */
  function Down<T>(h: seq<T>, key: T -> int, i: nat): (r: seq<T>)
    requires i < |h|
    ensures |r| == |h|
    decreases |h| - i
  {
    if |h| <= 2 * i + 1 || key(h[Child(h, key, i)]) <= key(h[i]) then h
    else Down(Swapped(h, i, Child(h, key, i)), key, Child(h, key, i))
  }

  function Push<T>(h: seq<T>, key: T -> int, x: T): seq<T> {
    Up(h + [x], key, |h|)
  }

  /** What is left once the front is taken out: the last element takes its place and moves down. */
  function Pop<T>(h: seq<T>, key: T -> int): (r: seq<T>)
    requires h != []
    ensures |r| == |h| - 1
  {
    if |h| == 1 then [] else Down([h[|h| - 1]] + h[1..|h| - 1], key, 0)
  }

  /** The elements in the order they are taken out. */
  function Drained<T>(h: seq<T>, key: T -> int): seq<T>
    decreases |h|
  {
    if h == [] then [] else [h[0]] + Drained(Pop(h, key), key)
  }

  // ------------------------------------------------------------------------- the order

  ghost predicate InOrder<T>(h: seq<T>, key: T -> int, k: nat)
    requires 0 < k < |h|
  {
    key(h[k]) <= key(h[Parent(k)])
  }

  ghost predicate IsHeap<T>(h: seq<T>, key: T -> int) {
    forall k :: 0 < k < |h| ==> InOrder(h, key, k)
  }

  /** A heap but for the element at j, which may be too large. */
  ghost predicate Rising<T>(h: seq<T>, key: T -> int, j: nat) {
    forall k :: 0 < k < |h| ==>
      && (k != j ==> InOrder(h, key, k))
      && (Parent(k) == j && 0 < j < |h| ==> key(h[k]) <= key(h[Parent(j)]))
  }

  /** A heap but for the element at i, which may be too small. */
  ghost predicate Sinking<T>(h: seq<T>, key: T -> int, i: nat) {
    forall k :: 0 < k < |h| ==>
      && (Parent(k) != i ==> InOrder(h, key, k))
      && (Parent(k) == i && 0 < i < |h| ==> key(h[k]) <= key(h[Parent(i)]))
  }

  lemma SwappedPermutes<T>(h: seq<T>, i: nat, j: nat)
    requires i < |h| && j < |h|
    ensures multiset(Swapped(h, i, j)) == multiset(h)
  {
  }

  lemma RiseOnce<T>(h: seq<T>, key: T -> int, j: nat)
    requires 0 < j < |h| && Rising(h, key, j) && key(h[j]) > key(h[Parent(j)])
    ensures Rising(Swapped(h, Parent(j), j), key, Parent(j))
  {
    var i, r := Parent(j), Swapped(h, Parent(j), j);
    forall k | 0 < k < |r|
      ensures k != i ==> InOrder(r, key, k)
      ensures Parent(k) == i && 0 < i < |r| ==> key(r[k]) <= key(r[Parent(i)])
    {
      assert k != j ==> InOrder(h, key, k);
      assert 0 < i ==> InOrder(h, key, i);
    }
  }

  lemma {:induction false} UpHeaps<T>(h: seq<T>, key: T -> int, j: nat)
    requires j < |h| && Rising(h, key, j)
    ensures IsHeap(Up(h, key, j), key) && multiset(Up(h, key, j)) == multiset(h)
    decreases j
  {
    if j == 0 || key(h[j]) <= key(h[Parent(j)]) {
      forall k | 0 < k < |h| ensures InOrder(h, key, k) {
      }
    } else {
      RiseOnce(h, key, j);
      SwappedPermutes(h, Parent(j), j);
      UpHeaps(Swapped(h, Parent(j), j), key, Parent(j));
    }
  }

  lemma SinkOnce<T>(h: seq<T>, key: T -> int, i: nat)
    requires 2 * i + 1 < |h| && Sinking(h, key, i) && key(h[Child(h, key, i)]) > key(h[i])
    ensures Sinking(Swapped(h, i, Child(h, key, i)), key, Child(h, key, i))
  {
    var j, r := Child(h, key, i), Swapped(h, i, Child(h, key, i));
    forall k | 0 < k < |r|
      ensures Parent(k) != j ==> InOrder(r, key, k)
      ensures Parent(k) == j && 0 < j < |r| ==> key(r[k]) <= key(r[Parent(j)])
    {
      assert Parent(k) != i ==> InOrder(h, key, k);
      assert Parent(k) == i ==> k == 2 * i + 1 || k == 2 * i + 2;
      assert Parent(k) == i ==> key(h[k]) <= key(h[j]);
    }
  }

  lemma {:induction false} DownHeaps<T>(h: seq<T>, key: T -> int, i: nat)
    requires i < |h| && Sinking(h, key, i)
    ensures IsHeap(Down(h, key, i), key) && multiset(Down(h, key, i)) == multiset(h)
    decreases |h| - i
  {
    if |h| <= 2 * i + 1 || key(h[Child(h, key, i)]) <= key(h[i]) {
      forall k | 0 < k < |h| ensures InOrder(h, key, k) {
        assert Parent(k) == i ==> k == 2 * i + 1 || k == 2 * i + 2;
      }
    } else {
      SinkOnce(h, key, i);
      SwappedPermutes(h, i, Child(h, key, i));
      DownHeaps(Swapped(h, i, Child(h, key, i)), key, Child(h, key, i));
    }
  }

  lemma {:induction false} FrontIsLargest<T>(h: seq<T>, key: T -> int, k: nat)
    requires IsHeap(h, key) && k < |h|
    ensures key(h[k]) <= key(h[0])
  {
    if k > 0 {
      assert InOrder(h, key, k);
      FrontIsLargest(h, key, Parent(k));
    }
  }

  lemma PushHeaps<T>(h: seq<T>, key: T -> int, x: T)
    requires IsHeap(h, key)
    ensures IsHeap(Push(h, key, x), key) && multiset(Push(h, key, x)) == multiset(h + [x])
  {
    var r := h + [x];
    forall k | 0 < k < |r|
      ensures k != |h| ==> InOrder(r, key, k)
      ensures Parent(k) != |h|
    {
      assert k < |h| ==> InOrder(h, key, k);
    }
    UpHeaps(r, key, |h|);
  }

  lemma {:induction false} UpFront<T>(h: seq<T>, key: T -> int, j: nat)
    requires j < |h| && IsHeap(h[..j], key)
    ensures Up(h, key, j)[0] == if j == 0 || key(h[j]) > key(h[0]) then h[j] else h[0]
    decreases j
  {
    if 0 < j {
      assert h[..j][0] == h[0] && h[..j][Parent(j)] == h[Parent(j)];
      FrontIsLargest(h[..j], key, Parent(j));
      if key(h[j]) > key(h[Parent(j)]) {
        var r := Swapped(h, Parent(j), j);
        forall k | 0 < k < Parent(j) ensures InOrder(r[..Parent(j)], key, k) {
          assert InOrder(h[..j], key, k) && r[k] == h[k] && r[Parent(k)] == h[Parent(k)];
        }
        UpFront(r, key, Parent(j));
      }
    }
  }

  /** A new element comes to the front only if it outdoes the one that is there. */
  lemma PushFront<T>(h: seq<T>, key: T -> int, x: T)
    requires IsHeap(h, key)
    ensures Push(h, key, x)[0] == if h == [] || key(x) > key(h[0]) then x else h[0]
  {
    assert (h + [x])[..|h|] == h;
    UpFront(h + [x], key, |h|);
  }

  lemma {:induction false} DownKeepsAbove<T>(h: seq<T>, key: T -> int, i: nat, k: nat)
    requires k < i < |h|
    ensures Down(h, key, i)[k] == h[k]
    decreases |h| - i
  {
    if 2 * i + 1 < |h| && key(h[Child(h, key, i)]) > key(h[i]) {
      DownKeepsAbove(Swapped(h, i, Child(h, key, i)), key, Child(h, key, i), k);
    }
  }

  /** Once the front is out, its left child follows if it outdoes the last element and the right child does not outdo it. */
  lemma PopFront<T>(h: seq<T>, key: T -> int)
    requires |h| >= 4
    ensures var last := h[|h| - 1];
            Pop(h, key)[0] == if key(h[1]) <= key(last) && key(h[2]) <= key(last) then last
                              else if key(h[2]) > key(h[1]) then h[2] else h[1]
  {
    var r := [h[|h| - 1]] + h[1..|h| - 1];
    if key(r[Child(r, key, 0)]) > key(r[0]) {
      DownKeepsAbove(Swapped(r, 0, Child(r, key, 0)), key, Child(r, key, 0), 0);
    }
  }

  lemma FrontOutdoesAll<T>(h: seq<T>, key: T -> int)
    requires IsHeap(h, key) && h != []
    ensures forall x :: x in h ==> key(x) <= key(h[0])
  {
    forall x | x in h ensures key(x) <= key(h[0]) {
      var k :| 0 <= k < |h| && h[k] == x;
      FrontIsLargest(h, key, k);
    }
  }

  lemma FrontMoves<T>(h: seq<T>)
    requires |h| > 1
    ensures multiset(h) == multiset([h[|h| - 1]] + h[1..|h| - 1] + [h[0]])
  {
    assert h == [h[0]] + h[1..|h| - 1] + [h[|h| - 1]];
  }

  /** The last element in the front's place is all that may be out of order. */
  lemma FrontReplaced<T>(h: seq<T>, key: T -> int, r: seq<T>)
    requires IsHeap(h, key) && |h| > 1 && r == [h[|h| - 1]] + h[1..|h| - 1]
    ensures Sinking(r, key, 0)
  {
    forall k | 0 < k < |r| ensures Parent(k) != 0 ==> InOrder(r, key, k) {
      assert InOrder(h, key, k);
    }
  }

  lemma PopHeaps<T>(h: seq<T>, key: T -> int)
    requires IsHeap(h, key) && h != []
    ensures IsHeap(Pop(h, key), key) && multiset(h) == multiset(Pop(h, key) + [h[0]])
    ensures forall x :: x in h ==> key(x) <= key(h[0])
  {
    FrontOutdoesAll(h, key);
    if |h| > 1 {
      var r := [h[|h| - 1]] + h[1..|h| - 1];
      FrontReplaced(h, key, r);
      FrontMoves(h);
      DownHeaps(r, key, 0);
    } else {
      assert h == [h[0]];
    }
  }

  lemma {:induction false} DrainedLength<T>(h: seq<T>, key: T -> int)
    ensures |Drained(h, key)| == |h|
    decreases |h|
  {
    if h != [] {
      DrainedLength(Pop(h, key), key);
    }
  }
}
