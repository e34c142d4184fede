/** What every run of the median cut achieves, and how it may stop too early. */
module CutResults {
  import opened Base
  import opened MaxHeap
  import opened MedianCut

  // ------------------------------------------------------------- what the cuts achieve

  lemma InnerBox(s: seq<Point>, b: Block, c: Block, j: nat)
    requires TightBlock(s, b) && TightBlock(s, c) && Inside(b, c) && j < NUM_DIMENSIONS
    ensures c.minCorner[j] <= b.minCorner[j] && b.maxCorner[j] <= c.maxCorner[j]
  {
    var i := ReachedAt(s, b.lo, b.hi, j, b.minCorner[j]);
    var k := ReachedAt(s, b.lo, b.hi, j, b.maxCorner[j]);
    SliceHas(s, c.lo, c.hi, i);
    SliceHas(s, c.lo, c.hi, k);
    assert InBox(s[i], c.minCorner, c.maxCorner) && InBox(s[k], c.minCorner, c.maxCorner);
  }

  ghost predicate ApartAlong(b: Block, c: Block, j: int) {
    0 <= j < NUM_DIMENSIONS && (b.maxCorner[j] <= c.minCorner[j] || c.maxCorner[j] <= b.minCorner[j])
  }

  /** The boxes meet at most at their faces. */
  ghost predicate ApartBoxes(b: Block, c: Block) {
    exists j :: ApartAlong(b, c, j)
  }

  ghost predicate AllApart(blocks: set<Block>) {
    forall b, c :: b in blocks && c in blocks && b != c ==> ApartBoxes(b, c)
  }

  lemma InnerApart(s: seq<Point>, b: Block, c: Block, d: Block)
    requires TightBlock(s, b) && TightBlock(s, c) && Inside(b, c) && ApartBoxes(c, d)
    ensures ApartBoxes(b, d) && ApartBoxes(d, b)
  {
    var j :| ApartAlong(c, d, j);
    InnerBox(s, b, c, j);
    assert ApartAlong(b, d, j) && ApartAlong(d, b, j);
  }

  lemma ApartFrom(s: seq<Point>, blocks: set<Block>, b: Block, half: Block)
    requires AllApart(blocks) && b in blocks && TightBlock(s, b) && TightBlock(s, half) && Inside(half, b)
    ensures forall d :: d in blocks - {b} ==> ApartBoxes(half, d) && ApartBoxes(d, half)
  {
    forall d | d in blocks - {b} ensures ApartBoxes(half, d) && ApartBoxes(d, half) {
      assert ApartBoxes(b, d);
      InnerApart(s, half, b, d);
    }
  }

  lemma ApartGrows(blocks: set<Block>, left: Block, right: Block)
    requires AllApart(blocks) && ApartBoxes(left, right) && ApartBoxes(right, left)
    requires forall d :: d in blocks ==> ApartBoxes(left, d) && ApartBoxes(d, left)
    requires forall d :: d in blocks ==> ApartBoxes(right, d) && ApartBoxes(d, right)
    ensures AllApart(blocks + {left, right})
  {
  }

  lemma HalvesKeepApart(s: seq<Point>, blocks: set<Block>, b: Block, left: Block, right: Block)
    requires AllApart(blocks) && b in blocks && Halves(b, left, right)
    requires TightBlock(s, b) && TightBlock(s, left) && TightBlock(s, right)
    ensures AllApart(blocks - {b} + {left, right})
  {
    var li :| IsLongest(b, li) && left.maxCorner[li] <= right.minCorner[li];
    assert ApartAlong(left, right, li) && ApartAlong(right, left, li);
    ApartFrom(s, blocks, b, left);
    ApartFrom(s, blocks, b, right);
    ApartGrows(blocks - {b}, left, right);
  }

  lemma HeapIsTight(s: seq<Point>, run: seq<seq<Block>>, i: nat, b: Block)
    requires i < |run| && HeapAt(s, run, i) && b in Elements(run[i])
    ensures TightBlock(s, b)
  {
  }

  lemma TurnKeepsApart(s: seq<Point>, numColor: nat, run: seq<seq<Block>>, i: nat)
    requires i + 1 < |run| && HeapAt(s, run, i) && HeapAt(s, run, i + 1) && TurnAt(run, numColor, i)
    requires AllApart(Elements(run[i]))
    ensures AllApart(Elements(run[i + 1]))
  {
    var pq, r := run[i], run[i + 1];
    var left, right :| Halves(pq[0], left, right) && r == Replaced(pq, left, right);
    assert pq[0] in Elements(pq);
    ReplacedHolds(pq, left, right);
    HeapIsTight(s, run, i, pq[0]);
    HeapIsTight(s, run, i + 1, left);
    HeapIsTight(s, run, i + 1, right);
    HalvesKeepApart(s, Elements(pq), pq[0], left, right);
  }

  lemma PushedHolds(pq: seq<Block>, b: Block)
    requires Heaped(pq)
    ensures Heaped(Push(pq, LongestSide, b)) && Elements(Push(pq, LongestSide, b)) == Elements(pq) + {b}
  {
    PushHeaps(pq, LongestSide, b);
    SamePermutation(Push(pq, LongestSide, b), pq + [b]);
    ElementsAppend(pq, [b]);
  }

  lemma ReplacedHolds(pq: seq<Block>, left: Block, right: Block)
    requires pq != [] && Heaped(pq) && NoDup(pq)
    ensures Elements(Replaced(pq, left, right)) == Elements(pq) - {pq[0]} + {left, right}
  {
    var rest := Pop(pq, LongestSide);
    PopHeaps(pq, LongestSide);
    PoppedSet(pq, pq[0], rest);
    PushedHolds(rest, left);
    PushedHolds(Push(rest, LongestSide, left), right);
  }

  /** After any number of turns the boxes of any two blocks are separated along some channel. */
  lemma {:induction false} CutsKeepApart(s: seq<Point>, numColor: nat, run: seq<seq<Block>>, i: nat)
    requires Cuts(s, numColor, run) && i < |run|
    ensures AllApart(Elements(run[i]))
  {
    if i == 0 {
      assert run[0] == [run[0][0]] && Elements(run[0]) == {run[0][0]};
    } else {
      CutsKeepApart(s, numColor, run, i - 1);
      assert HeapAt(s, run, i - 1) && HeapAt(s, run, i) && TurnAt(run, numColor, i - 1);
      TurnKeepsApart(s, numColor, run, i - 1);
    }
  }

  // ------------------------------------------------------------------ stopping too early

  /** Points that differ in one channel only, in order. */
  ghost predicate IsRow(s: seq<Point>) {
    && (forall i :: 0 <= i < |s| ==> s[i][1] == s[i][2] == 0)
    && (forall i, j :: 0 <= i < j < |s| ==> s[i][0] <= s[j][0])
  }

  function RowBlock(s: seq<Point>, lo: nat, hi: nat): Block
    requires lo < hi <= |s|
  {
    Block(lo, hi, s[lo], s[hi - 1])
  }

  lemma RowTight(s: seq<Point>, lo: nat, hi: nat)
    requires IsRow(s) && lo < hi <= |s|
    ensures TightBlock(s, RowBlock(s, lo, hi))
  {
    SliceHas(s, lo, hi, lo);
    SliceHas(s, lo, hi, hi - 1);
    forall p | p in s[lo..hi] ensures InBox(p, s[lo], s[hi - 1]) {
      var k :| 0 <= k < hi - lo && s[lo..hi][k] == p;
      assert s[lo + k] == p && s[lo][0] <= p[0] <= s[hi - 1][0];
    }
    forall j | 0 <= j < NUM_DIMENSIONS ensures Reached(s[lo..hi], j, s[lo][j]) && Reached(s[lo..hi], j, s[hi - 1][j]) {
    }
  }

  lemma RowSide(s: seq<Point>, lo: nat, hi: nat)
    requires IsRow(s) && lo < hi <= |s|
    ensures var b := RowBlock(s, lo, hi); LongestSide(b) == s[hi - 1][0] - s[lo][0] && IsLongest(b, 0)
  {
    var b := RowBlock(s, lo, hi);
    assert s[lo][0] <= s[hi - 1][0];
    assert Side(b, 1) == 0 && Side(b, 2) == 0;
  }

  lemma RowHalves(s: seq<Point>, lo: nat, hi: nat)
    requires IsRow(s) && lo + 2 <= hi <= |s|
    ensures var mid := (lo + hi) / 2; Halves(RowBlock(s, lo, hi), RowBlock(s, lo, mid), RowBlock(s, mid, hi))
  {
    var mid := (lo + hi) / 2;
    RowSide(s, lo, hi);
    assert s[mid - 1][0] <= s[mid][0];
  }

  /** All five, then two and three of them, then the two apart, the second of which ends up in the last slot. */
  function RowRun(s: seq<Point>): seq<seq<Block>>
    requires |s| == 5
  {
    [[RowBlock(s, 0, 5)],
     [RowBlock(s, 0, 2), RowBlock(s, 2, 5)],
     [RowBlock(s, 2, 5), RowBlock(s, 0, 1), RowBlock(s, 1, 2)]]
  }

  lemma FirstReplaced(w: Block, l: Block, r: Block)
    requires LongestSide(r) <= LongestSide(l)
    ensures Replaced([w], l, r) == [l, r] && Heaped([w]) && Heaped([l, r])
  {
    assert [] + [l] == [l] && [l] + [r] == [l, r];
  }

  lemma SecondReplaced(l: Block, r: Block, a: Block, b: Block)
    requires LongestSide(a) <= LongestSide(r) && LongestSide(b) <= LongestSide(r)
    ensures Replaced([l, r], a, b) == [r, a, b] && Heaped([r, a, b])
  {
    assert [r] + [l, r][1..1] == [r];
    assert Pop([l, r], LongestSide) == [r];
    assert [r] + [a] == [r, a] && [r, a] + [b] == [r, a, b];
  }

  lemma ThreeTiles(n: nat, w: Block, l: Block, r: Block, a: Block, b: Block)
    requires Tiles(n, {w}) && w.lo == l.lo == a.lo && l.hi == r.lo == b.hi && r.hi == w.hi && a.hi == b.lo
    requires Fits(l, n) && Fits(r, n) && Fits(a, n) && Fits(b, n)
    ensures Tiles(n, {l, r}) && Tiles(n, {r, a, b}) && l != r && r != a && r != b && a != b
  {
    SplitTiles(n, {w}, w, l, r);
    assert {w} - {w} + {l, r} == {l, r};
    SplitTiles(n, {l, r}, l, a, b);
    assert {l, r} - {l} + {a, b} == {r, a, b};
  }

  lemma PartitionOfTwo(s: seq<Point>, l: Block, r: Block)
    requires Tiles(|s|, {l, r}) && l != r && TightBlock(s, l) && TightBlock(s, r)
    ensures Partition(s, [l, r])
  {
    assert Elements([l, r]) == {l, r};
  }

  lemma PartitionOfThree(s: seq<Point>, r: Block, a: Block, b: Block)
    requires Tiles(|s|, {r, a, b}) && r != a && r != b && a != b
    requires TightBlock(s, r) && TightBlock(s, a) && TightBlock(s, b)
    ensures Partition(s, [r, a, b])
  {
    assert Elements([r, a, b]) == {r, a, b};
  }

  lemma RowPartitions(s: seq<Point>, w: Block, l: Block, r: Block, a: Block, b: Block)
    requires IsRow(s) && |s| == 5 && w == RowBlock(s, 0, 5) && l == RowBlock(s, 0, 2) && r == RowBlock(s, 2, 5)
    requires a == RowBlock(s, 0, 1) && b == RowBlock(s, 1, 2)
    ensures TightBlock(s, w) && Partition(s, [l, r]) && Partition(s, [r, a, b])
  {
    RowTight(s, 0, 5);
    RowTight(s, 0, 2);
    RowTight(s, 2, 5);
    RowTight(s, 0, 1);
    RowTight(s, 1, 2);
    OneBlock(s, w);
    assert Elements([w]) == {w};
    ThreeTiles(5, w, l, r, a, b);
    PartitionOfTwo(s, l, r);
    PartitionOfThree(s, r, a, b);
  }

  lemma RowTurns(s: seq<Point>, w: Block, l: Block, r: Block, a: Block, b: Block)
    requires IsRow(s) && |s| == 5 && w == RowBlock(s, 0, 5) && l == RowBlock(s, 0, 2) && r == RowBlock(s, 2, 5)
    requires a == RowBlock(s, 0, 1) && b == RowBlock(s, 1, 2) && s[4][0] - s[2][0] <= s[1][0] - s[0][0]
    ensures Turns([w], [l, r]) && Turns([l, r], [r, a, b]) && Heaped([l, r]) && Heaped([r, a, b])
    ensures LongestSide(r) == s[4][0] - s[2][0]
  {
    RowSide(s, 0, 2);
    RowSide(s, 2, 5);
    RowSide(s, 0, 1);
    RowSide(s, 1, 2);
    FirstReplaced(w, l, r);
    SecondReplaced(l, r, a, b);
    RowHalves(s, 0, 5);
    RowHalves(s, 0, 2);
  }

  lemma TwoCuts(s: seq<Point>, numColor: nat, w: Block, p: seq<Block>)
    requires TightBlock(s, w) && w.lo == 0 && w.hi == |s| > 1 && |p| == 2 && 1 < numColor
    requires Turns([w], p) && Heaped(p) && Partition(s, p)
    ensures Cuts(s, numColor, [[w], p])
  {
    FirstCut(s, numColor, w);
    OneMoreCut(s, numColor, [[w]], p);
    assert [[w]] + [p] == [[w], p];
  }

  lemma ThreeCuts(s: seq<Point>, numColor: nat, w: Block, p: seq<Block>, q: seq<Block>)
    requires Cuts(s, numColor, [[w], p]) && |q| == 3 && GoesOn(p, numColor)
    requires Turns(p, q) && Heaped(q) && Partition(s, q)
    ensures Cuts(s, numColor, [[w], p, q])
  {
    var run := [[w], p];
    assert run[|run| - 1] == p;
    OneMoreCut(s, numColor, run, q);
    assert run + [q] == [[w], p, q];
  }

  /**
   * The loop stops while a block of several colours is left: of five colours in a row, the first two no
   * closer than the last three span, those three get one entry between them, whatever more is allowed.
   */
  lemma RowStopsEarly(s: seq<Point>, numColor: nat)
    requires IsRow(s) && |s| == 5 && numColor > 3 && s[4][0] - s[2][0] <= s[1][0] - s[0][0]
    ensures CutRun(s, numColor, RowRun(s)) && |RowRun(s)[2]| == 3
    ensures LongestSide(RowRun(s)[2][0]) == s[4][0] - s[2][0]
  {
    var w, l, r, a, b := RowBlock(s, 0, 5), RowBlock(s, 0, 2), RowBlock(s, 2, 5), RowBlock(s, 0, 1), RowBlock(s, 1, 2);
    RowPartitions(s, w, l, r, a, b);
    RowTurns(s, w, l, r, a, b);
    TwoCuts(s, numColor, w, [l, r]);
    ThreeCuts(s, numColor, w, [l, r], [r, a, b]);
  }

  function Red(level: nat): Point
    requires level < 256
  {
    [level * 256, 0, 0]
  }

  lemma RedKey(level: nat)
    requires level < 256
    ensures Key(Red(level)) == level * 65536
  {
  }

  const REDS := [Red(0), Red(100), Red(110), Red(111), Red(112)]

  lemma RedsAreARow()
    ensures IsRow(REDS) && REDS[4][0] - REDS[2][0] == 512 && REDS[1][0] - REDS[0][0] == 25600
  {
  }

  lemma FiveApart(a: int, b: int, c: int, d: int, e: int)
    requires a < b < c < d < e
    ensures |{a, b, c, d, e}| == 5
  {
    assert {a, b, c, d, e} - {a} == {b, c, d, e} && {b, c, d, e} - {b} == {c, d, e};
  }

  lemma KeysOfFive(s: seq<Point>)
    requires |s| == 5 && Key(s[0]) < Key(s[1]) < Key(s[2]) < Key(s[3]) < Key(s[4])
    ensures |Keys(s)| == 5
  {
    assert forall i :: 0 <= i < 5 ==> s[i] in s;
    assert Keys(s) == {Key(s[0]), Key(s[1]), Key(s[2]), Key(s[3]), Key(s[4])};
    FiveApart(Key(s[0]), Key(s[1]), Key(s[2]), Key(s[3]), Key(s[4]));
  }

  lemma RedKeys()
    ensures |Keys(REDS)| == 5
  {
    RedKey(0);
    RedKey(100);
    RedKey(110);
    RedKey(111);
    RedKey(112);
    KeysOfFive(REDS);
  }

  /** With four colours allowed, these five reds get three. */
  lemma RedsStopEarly()
    ensures |REDS| == 5 && |Keys(REDS)| == 5 && CutRun(REDS, 4, RowRun(REDS)) && |RowRun(REDS)[2]| == 3
    ensures LongestSide(RowRun(REDS)[2][0]) == 512
  {
    RedKeys();
    RedsAreARow();
    RowStopsEarly(REDS, 4);
  }
}
