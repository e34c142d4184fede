/** Median-cut colour quantisation (imgutils/helper.go:47-243). */
module MedianCut {
  import opened Base
  import opened Sorting
  import opened MaxHeap

  const NUM_DIMENSIONS := 3

  /** A 16-bit colour channel. */
  type Level = n: int | 0 <= n <= 0xFFFF

  type Point = p: seq<Level> | |p| == 3 witness [0, 0, 0]

  /** A window [lo, hi) of the points, with its bounding box. */
  datatype Block = Block(lo: nat, hi: nat, minCorner: Point, maxCorner: Point)

  // -------------------------------------------------------------------------- boxes

  ghost predicate InBox(p: Point, low: Point, high: Point) {
    forall j :: 0 <= j < NUM_DIMENSIONS ==> low[j] <= p[j] <= high[j]
  }

  ghost predicate Reached(s: seq<Point>, j: nat, level: Level)
    requires j < NUM_DIMENSIONS
  {
    exists p :: p in s && p[j] == level
  }

  /** The smallest box around s. */
  ghost predicate Tight(s: seq<Point>, low: Point, high: Point) {
    && (forall p :: p in s ==> InBox(p, low, high))
    && (forall j :: 0 <= j < NUM_DIMENSIONS ==> Reached(s, j, low[j]) && Reached(s, j, high[j]))
  }

  function Coord(p: Point, j: nat): int
    requires j < NUM_DIMENSIONS
  {
    p[j]
  }

  function Side(b: Block, j: nat): int
    requires j < NUM_DIMENSIONS
  {
    Coord(b.maxCorner, j) - Coord(b.minCorner, j)
  }

  function Max(x: int, y: int): int {
    if x > y then x else y
  }

  function LongestSide(b: Block): int {
    Max(Side(b, 0), Max(Side(b, 1), Side(b, 2)))
  }

  method LongestSideIndex(b: Block) returns (r: nat)
    ensures r < NUM_DIMENSIONS && Side(b, r) == LongestSide(b)
    ensures forall j :: 0 <= j < r ==> Side(b, j) < Side(b, r)
  {
    var m := Coord(b.maxCorner, 0) - Coord(b.minCorner, 0);
    r := 0;
    for i := 1 to NUM_DIMENSIONS
      invariant r < i && m == Side(b, r) && forall j :: 0 <= j < i ==> Side(b, j) <= m
      invariant forall j :: 0 <= j < r ==> Side(b, j) < m
    {
      var diff := Coord(b.maxCorner, i) - Coord(b.minCorner, i);
      if diff > m {
        m, r := diff, i;
      }
    }
  }

  /** Widen the box just enough to take p in. */
  method Widen(low: Point, high: Point, p: Point) returns (l: Point, h: Point)
    ensures forall j :: 0 <= j < NUM_DIMENSIONS ==> l[j] == (if low[j] < p[j] then low[j] else p[j])
    ensures forall j :: 0 <= j < NUM_DIMENSIONS ==> h[j] == (if high[j] > p[j] then high[j] else p[j])
  {
    l, h := low, high;
    for j := 0 to NUM_DIMENSIONS
      invariant forall k :: 0 <= k < j ==> l[k] == (if low[k] < p[k] then low[k] else p[k])
      invariant forall k :: 0 <= k < j ==> h[k] == (if high[k] > p[k] then high[k] else p[k])
      invariant forall k :: j <= k < NUM_DIMENSIONS ==> l[k] == low[k] && h[k] == high[k]
    {
      l := l[j := if l[j] < p[j] then l[j] else p[j]];
      h := h[j := if h[j] > p[j] then h[j] else p[j]];
    }
  }

  lemma WidenKeepsTight(s: seq<Point>, low: Point, high: Point, p: Point, l: Point, h: Point)
    requires Tight(s, low, high)
    requires forall j :: 0 <= j < NUM_DIMENSIONS ==> l[j] == (if low[j] < p[j] then low[j] else p[j])
    requires forall j :: 0 <= j < NUM_DIMENSIONS ==> h[j] == (if high[j] > p[j] then high[j] else p[j])
    ensures Tight(s + [p], l, h)
  {
    forall q | q in s + [p] ensures InBox(q, l, h) {
      assert q == p || InBox(q, low, high);
    }
    forall j | 0 <= j < NUM_DIMENSIONS ensures Reached(s + [p], j, l[j]) && Reached(s + [p], j, h[j]) {
      var q :| q in s && q[j] == low[j];
      var r :| r in s && r[j] == high[j];
      assert p in s + [p] && q in s + [p] && r in s + [p];
    }
  }

  /** The block over a window that is not empty. */
  method Shrink(points: array<Point>, lo: nat, hi: nat) returns (b: Block)
    requires lo < hi <= points.Length
    ensures b.lo == lo && b.hi == hi && Tight(points[lo..hi], b.minCorner, b.maxCorner)
  {
    var low, high := points[lo], points[lo];
    assert points[lo..lo + 1] == [points[lo]];
    assert Tight([points[lo]], low, high) by {
      assert points[lo] in [points[lo]];
    }
    for i := lo + 1 to hi
      invariant Tight(points[lo..i], low, high)
    {
      var l, h := Widen(low, high, points[i]);
      WidenKeepsTight(points[lo..i], low, high, points[i], l, h);
      assert points[lo..i + 1] == points[lo..i] + [points[i]];
      low, high := l, h;
    }
    b := Block(lo, hi, low, high);
  }

  // -------------------------------------------------------------------------- tiling

  ghost predicate Fits(b: Block, n: nat) {
    b.lo < b.hi <= n
  }

  ghost predicate Disjoint(b: Block, c: Block) {
    b.hi <= c.lo || c.hi <= b.lo
  }

  ghost predicate Covers(blocks: set<Block>, i: nat) {
    exists b :: b in blocks && b.lo <= i < b.hi
  }

  /** The blocks cut [0, n) into parts, none of them empty. */
  ghost predicate Tiles(n: nat, blocks: set<Block>) {
    && (forall b :: b in blocks ==> Fits(b, n))
    && (forall b, c :: b in blocks && c in blocks && b != c ==> Disjoint(b, c))
    && (forall i :: 0 <= i < n ==> Covers(blocks, i))
  }

  ghost predicate AllTight(s: seq<Point>, blocks: set<Block>) {
    forall b :: b in blocks && Fits(b, |s|) ==> Tight(s[b.lo..b.hi], b.minCorner, b.maxCorner)
  }

  lemma SplitTiles(n: nat, blocks: set<Block>, b: Block, left: Block, right: Block)
    requires Tiles(n, blocks) && b in blocks
    requires b.lo == left.lo && left.hi == right.lo && right.hi == b.hi && Fits(left, n) && Fits(right, n)
    ensures Tiles(n, blocks - {b} + {left, right})
    ensures left !in blocks - {b} && right !in blocks - {b} && left != right
  {
    var now := blocks - {b} + {left, right};
    forall c | c in blocks - {b} ensures Disjoint(c, left) && Disjoint(c, right) && c != left && c != right {
      assert Disjoint(c, b) && Fits(c, n);
    }
    forall i | 0 <= i < n ensures Covers(now, i) {
      assert Covers(blocks, i);
      var c :| c in blocks && c.lo <= i < c.hi;
      if c == b {
        assert left in now && right in now;
      } else {
        assert c in now;
      }
    }
  }

  /** A box without extent holds a single colour. */
  lemma FlatIsPlain(s: seq<Point>, low: Point, high: Point, p: Point)
    requires Tight(s, low, high) && p in s && forall j :: 0 <= j < NUM_DIMENSIONS ==> Coord(high, j) <= Coord(low, j)
    ensures p == low
  {
    assert InBox(p, low, high);
    assert forall j :: 0 <= j < NUM_DIMENSIONS ==> Coord(high, j) == high[j] && Coord(low, j) == low[j] && p[j] == low[j];
  }

  lemma {:induction false} ImageCard<S, T>(f: S -> T, s: set<S>, image: set<T>)
    requires image == set x | x in s :: f(x)
    ensures |image| <= |s|
    decreases |s|
  {
    if s != {} {
      var x :| x in s;
      var less := set y | y in s - {x} :: f(y);
      ImageCard(f, s - {x}, less);
      assert image == less + {f(x)};
    }
  }

  lemma InFlatBlock(s: seq<Point>, b: Block, i: nat)
    requires Fits(b, |s|) && Tight(s[b.lo..b.hi], b.minCorner, b.maxCorner) && LongestSide(b) <= 0 && b.lo <= i < b.hi
    ensures s[i] == b.minCorner
  {
    forall j | 0 <= j < NUM_DIMENSIONS ensures Coord(b.maxCorner, j) <= Coord(b.minCorner, j) {
      assert Side(b, j) <= LongestSide(b);
    }
    SliceHas(s, b.lo, b.hi, i);
    FlatIsPlain(s[b.lo..b.hi], b.minCorner, b.maxCorner, s[i]);
  }

  lemma SliceHas<T>(s: seq<T>, lo: nat, hi: nat, i: nat)
    requires lo <= i < hi <= |s|
    ensures s[i] in s[lo..hi]
  {
    assert s[lo..hi][i - lo] == s[i];
  }

  /** Pigeonhole: with more colours than blocks, some block has extent. */
  lemma SomeBlockHasExtent(s: seq<Point>, blocks: set<Block>)
    requires Tiles(|s|, blocks) && AllTight(s, blocks) && |Elements(s)| > |blocks|
    ensures exists b :: b in blocks && LongestSide(b) > 0
  {
    if forall b :: b in blocks ==> LongestSide(b) <= 0 {
      var corners := set b | b in blocks :: b.minCorner;
      ImageCard((b: Block) => b.minCorner, blocks, corners);
      forall p | p in s ensures p in corners {
        var i :| 0 <= i < |s| && s[i] == p;
        assert Covers(blocks, i);
        var b :| b in blocks && b.lo <= i < b.hi;
        InFlatBlock(s, b, i);
      }
      SubsetCard(Elements(s), corners);
    }
  }

  lemma ExtentNeedsTwo(s: seq<Point>, b: Block)
    requires Fits(b, |s|) && Tight(s[b.lo..b.hi], b.minCorner, b.maxCorner) && LongestSide(b) > 0
    ensures b.hi - b.lo >= 2
  {
    var j :| 0 <= j < NUM_DIMENSIONS && Side(b, j) > 0;
    var i := ReachedAt(s, b.lo, b.hi, j, b.minCorner[j]);
    var k := ReachedAt(s, b.lo, b.hi, j, b.maxCorner[j]);
    assert Coord(b.minCorner, j) != Coord(b.maxCorner, j);
  }

  // ---------------------------------------------------------------------- the heap

  /** The block with the longest side is at the front. */
  ghost predicate Heaped(pq: seq<Block>) {
    IsHeap(pq, LongestSide)
  }

  lemma PushedSet(pq: seq<Block>, b: Block, r: seq<Block>)
    requires NoDup(pq) && b !in Elements(pq) && multiset(r) == multiset(pq + [b])
    ensures NoDup(r) && Elements(r) == Elements(pq) + {b} && |r| == |pq| + 1
  {
    SamePermutation(r, pq + [b]);
    assert |r| == |multiset(r)| && |pq + [b]| == |multiset(pq + [b])|;
  }

  lemma PoppedSet(pq: seq<Block>, b: Block, r: seq<Block>)
    requires NoDup(pq) && multiset(pq) == multiset(r + [b])
    ensures NoDup(r) && Elements(r) == Elements(pq) - {b} && b in Elements(pq)
  {
    var all := r + [b];
    SamePermutation(pq, all);
    forall i | 0 <= i < |r| ensures r[i] != b {
      assert all[i] == r[i] && all[|r|] == b;
    }
    forall i, j | 0 <= i < j < |r| ensures r[i] != r[j] {
      assert all[i] == r[i] && all[j] == r[j];
    }
    assert forall x :: x in pq <==> x in all;
  }

  // ------------------------------------------------------------------------ splitting

  lemma SameTail<T>(s: seq<T>, t: seq<T>, hi: nat)
    requires hi <= |s| == |t| && forall k :: hi <= k < |s| ==> s[k] == t[k]
    ensures s[hi..] == t[hi..]
  {
  }

  /** Sort one window by one channel; nothing outside it moves. */
  method SortWindow(points: array<Point>, lo: nat, hi: nat, li: nat)
    requires lo < hi <= points.Length && li < NUM_DIMENSIONS
    modifies points
    ensures points[..lo] == old(points[..lo]) && points[hi..] == old(points[hi..])
    ensures multiset(points[lo..hi]) == multiset(old(points[lo..hi]))
    ensures forall i, j :: lo <= i < j < hi ==> points[i][li] <= points[j][li]
  {
    var less := (p: Point, q: Point) => p[li] < q[li];
    var sorted := Sort(points[lo..hi], less);
    assert IsOrder(less);
    ghost var was := points[..];
    forall i | lo <= i < hi {
      points[i] := sorted[i - lo];
    }
    assert points[lo..hi] == sorted;
    SameTail(was, points[..], hi);
    assert points[hi..] == points[..][hi..] && was[hi..] == old(points[hi..]);
    forall i, j | lo <= i < j < hi ensures points[i][li] <= points[j][li] {
      assert !less(sorted[j - lo], sorted[i - lo]);
    }
  }

  lemma SameSlice<T>(was: seq<T>, now: seq<T>, lo: nat, hi: nat, from: nat, to: nat)
    requires |was| == |now| && lo < hi <= |was| && was[..lo] == now[..lo] && was[hi..] == now[hi..]
    requires from < to <= |was| && (to <= lo || hi <= from)
    ensures was[from..to] == now[from..to]
  {
    forall i | from <= i < to ensures was[i] == now[i] {
      if to <= lo {
        assert was[..lo][i] == now[..lo][i];
      } else {
        assert was[hi..][i - hi] == now[hi..][i - hi];
      }
    }
  }

  ghost predicate Inside(b: Block, c: Block) {
    c.lo <= b.lo && b.hi <= c.hi
  }

  /** Windows of earlier blocks hold those of the present ones, or do not meet them. */
  ghost predicate Nested(past: set<Block>, blocks: set<Block>) {
    forall c, b :: c in past && b in blocks ==> Inside(b, c) || Disjoint(b, c)
  }

  lemma NestedSplit(n: nat, past: set<Block>, blocks: set<Block>, b: Block, left: Block, right: Block)
    requires Tiles(n, blocks) && Nested(past, blocks) && b in blocks
    requires b.lo == left.lo && left.hi == right.lo && right.hi == b.hi && Fits(left, n) && Fits(right, n)
    ensures Nested(past + {left, right}, blocks - {b} + {left, right})
  {
    forall c, d | c in past + {left, right} && d in blocks - {b} + {left, right} ensures Inside(d, c) || Disjoint(d, c) {
      assert d in blocks && d != b ==> Disjoint(b, d);
      assert c in past ==> Inside(b, c) || Disjoint(b, c);
    }
  }

  lemma TightPermutes(s: seq<Point>, t: seq<Point>, low: Point, high: Point)
    requires Tight(s, low, high) && multiset(s) == multiset(t)
    ensures Tight(t, low, high)
  {
    SamePermutation(s, t);
    forall j | 0 <= j < NUM_DIMENSIONS ensures Reached(t, j, low[j]) && Reached(t, j, high[j]) {
      assert Reached(s, j, low[j]) && Reached(s, j, high[j]);
    }
  }

  lemma ThreeParts<T>(s: seq<T>, from: nat, lo: nat, hi: nat, to: nat)
    requires from <= lo <= hi <= to <= |s|
    ensures s[from..to] == s[from..lo] + s[lo..hi] + s[hi..to]
  {
  }

  lemma SameAround<T>(was: seq<T>, now: seq<T>, from: nat, lo: nat, hi: nat, to: nat)
    requires |was| == |now| && from <= lo <= hi <= to <= |was| && was[..lo] == now[..lo] && was[hi..] == now[hi..]
    ensures was[from..lo] == now[from..lo] && was[hi..to] == now[hi..to]
  {
    assert was[from..lo] == was[..lo][from..] && now[from..lo] == now[..lo][from..];
    assert was[hi..to] == was[hi..][..to - hi] && now[hi..to] == now[hi..][..to - hi];
  }

  lemma MultisetOfThree<T>(a: seq<T>, b: seq<T>, c: seq<T>)
    ensures multiset(a + b + c) == multiset(a) + multiset(b) + multiset(c)
  {
  }

  /** A window that holds the sorted one is only permuted. */
  lemma OuterPermutes(was: seq<Point>, now: seq<Point>, lo: nat, hi: nat, from: nat, to: nat)
    requires |was| == |now| && from <= lo <= hi <= to <= |was| && was[..lo] == now[..lo] && was[hi..] == now[hi..]
    requires multiset(was[lo..hi]) == multiset(now[lo..hi])
    ensures multiset(was[from..to]) == multiset(now[from..to])
  {
    ThreeParts(was, from, lo, hi, to);
    ThreeParts(now, from, lo, hi, to);
    SameAround(was, now, from, lo, hi, to);
    MultisetOfThree(was[from..lo], was[lo..hi], was[hi..to]);
    MultisetOfThree(now[from..lo], now[lo..hi], now[hi..to]);
  }

  /** Sorting a window leaves the box of every earlier block tight. */
  lemma PastStaysTight(was: seq<Point>, now: seq<Point>, past: set<Block>, b: Block)
    requires |was| == |now| && Fits(b, |was|) && AllTight(was, past) && Nested(past, {b})
    requires was[..b.lo] == now[..b.lo] && was[b.hi..] == now[b.hi..]
    requires multiset(was[b.lo..b.hi]) == multiset(now[b.lo..b.hi])
    ensures AllTight(now, past)
  {
    forall c | c in past && Fits(c, |now|) ensures Tight(now[c.lo..c.hi], c.minCorner, c.maxCorner) {
      assert b in {b};
      if Inside(b, c) {
        OuterPermutes(was, now, b.lo, b.hi, c.lo, c.hi);
        TightPermutes(was[c.lo..c.hi], now[c.lo..c.hi], c.minCorner, c.maxCorner);
      } else {
        SameSlice(was, now, b.lo, b.hi, c.lo, c.hi);
      }
    }
  }

  /** Sort a block's window by one channel and halve it. */
  method Cut(points: array<Point>, b: Block, li: nat) returns (left: Block, right: Block)
    requires b.lo + 2 <= b.hi <= points.Length && li < NUM_DIMENSIONS
    modifies points
    ensures points[..b.lo] == old(points[..b.lo]) && points[b.hi..] == old(points[b.hi..])
    ensures multiset(points[b.lo..b.hi]) == multiset(old(points[b.lo..b.hi]))
    ensures left.lo == b.lo && left.hi == right.lo == (b.lo + b.hi) / 2 && right.hi == b.hi
    ensures Tight(points[left.lo..left.hi], left.minCorner, left.maxCorner)
    ensures Tight(points[right.lo..right.hi], right.minCorner, right.maxCorner)
    ensures left.maxCorner[li] <= right.minCorner[li]
  {
    SortWindow(points, b.lo, b.hi, li);
    var median := (b.hi - b.lo) / 2;
    left := Shrink(points, b.lo, b.lo + median);
    right := Shrink(points, b.lo + median, b.hi);
    ghost var s := points[..];
    assert s[left.lo..left.hi] == points[left.lo..left.hi] && s[right.lo..right.hi] == points[right.lo..right.hi];
    HalvesAreApart(s, left, right, li);
  }

  ghost predicate TightBlock(s: seq<Point>, b: Block) {
    Fits(b, |s|) && Tight(s[b.lo..b.hi], b.minCorner, b.maxCorner)
  }

  /** left and right are the halves of b at the median, separated along the first of its longest sides. */
  ghost predicate Halves(b: Block, left: Block, right: Block) {
    && left.lo == b.lo && left.hi == right.lo == (b.lo + b.hi) / 2 && right.hi == b.hi
    && exists li :: IsLongest(b, li) && left.maxCorner[li] <= right.minCorner[li]
  }

  ghost predicate IsLongest(b: Block, li: int) {
    0 <= li < NUM_DIMENSIONS && Side(b, li) == LongestSide(b) && forall j :: 0 <= j < li ==> Side(b, j) < Side(b, li)
  }

  lemma SplitDone(was: seq<Point>, now: seq<Point>, blocks: set<Block>, past: set<Block>, b: Block, left: Block, right: Block)
    requires |was| == |now| && Tiles(|was|, blocks) && b in blocks && AllTight(was, past) && Nested(past, blocks)
    requires was[..b.lo] == now[..b.lo] && was[b.hi..] == now[b.hi..]
    requires multiset(was[b.lo..b.hi]) == multiset(now[b.lo..b.hi])
    requires b.lo == left.lo && left.hi == right.lo && right.hi == b.hi && TightBlock(now, left) && TightBlock(now, right)
    ensures Tiles(|now|, blocks - {b} + {left, right}) && AllTight(now, past + {left, right})
    ensures Nested(past + {left, right}, blocks - {b} + {left, right})
    ensures left !in blocks - {b} && right !in blocks - {b} && left != right
  {
    PastStaysTight(was, now, past, b);
    SplitTiles(|was|, blocks, b, left, right);
    NestedSplit(|was|, past, blocks, b, left, right);
  }

  /** Cut a block at the median of its longest side; past are the blocks there ever were. */
  method Split(points: array<Point>, b: Block, ghost blocks: set<Block>, ghost past: set<Block>) returns (left: Block, right: Block)
    requires Tiles(points.Length, blocks) && b in blocks && LongestSide(b) > 0
    requires blocks <= past && AllTight(points[..], past) && Nested(past, blocks)
    modifies points
    ensures multiset(points[..]) == multiset(old(points[..])) && Halves(b, left, right)
    ensures Tiles(points.Length, blocks - {b} + {left, right}) && AllTight(points[..], past + {left, right})
    ensures Nested(past + {left, right}, blocks - {b} + {left, right})
    ensures left !in blocks - {b} && right !in blocks - {b} && left != right
  {
    ghost var was := points[..];
    ExtentNeedsTwo(was, b);
    var li := LongestSideIndex(b);
    left, right := Cut(points, b, li);
    ghost var now := points[..];
    SameWindows(points, now, b, left, right);
    OuterPermutes(was, now, b.lo, b.hi, 0, |was|);
    assert was[0..|was|] == was && now[0..|was|] == now;
    SplitDone(was, now, blocks, past, b, left, right);
    assert IsLongest(b, li);
  }

  lemma SameWindows(points: array<Point>, s: seq<Point>, b: Block, left: Block, right: Block)
    requires s == points[..] && b.lo <= b.hi <= |s| && Fits(left, |s|) && Fits(right, |s|)
    ensures s[..b.lo] == points[..b.lo] && s[b.hi..] == points[b.hi..] && s[b.lo..b.hi] == points[b.lo..b.hi]
    ensures s[left.lo..left.hi] == points[left.lo..left.hi] && s[right.lo..right.hi] == points[right.lo..right.hi]
  {
  }

  lemma HalvesAreApart(s: seq<Point>, left: Block, right: Block, li: nat)
    requires Fits(left, |s|) && Fits(right, |s|) && left.hi == right.lo && li < NUM_DIMENSIONS
    requires Tight(s[left.lo..left.hi], left.minCorner, left.maxCorner)
    requires Tight(s[right.lo..right.hi], right.minCorner, right.maxCorner)
    requires forall i, j :: left.lo <= i < j < right.hi ==> s[i][li] <= s[j][li]
    ensures left.maxCorner[li] <= right.minCorner[li]
  {
    var i := ReachedAt(s, left.lo, left.hi, li, left.maxCorner[li]);
    var j := ReachedAt(s, right.lo, right.hi, li, right.minCorner[li]);
    assert s[i][li] <= s[j][li];
  }

  lemma ReachedAt(s: seq<Point>, lo: nat, hi: nat, j: nat, level: Level) returns (i: nat)
    requires lo <= hi <= |s| && j < NUM_DIMENSIONS && Reached(s[lo..hi], j, level)
    ensures lo <= i < hi && s[i][j] == level
  {
    var p :| p in s[lo..hi] && p[j] == level;
    var k :| 0 <= k < hi - lo && s[lo..hi][k] == p;
    i := lo + k;
  }

  // ------------------------------------------------------------------------- averaging

  function Sum(s: seq<Point>, j: nat): nat
    requires j < NUM_DIMENSIONS
  {
    if s == [] then 0 else Sum(s[..|s| - 1], j) + s[|s| - 1][j]
  }

  lemma {:induction false} SumAppends(s: seq<Point>, t: seq<Point>, j: nat)
    requires j < NUM_DIMENSIONS
    ensures Sum(s + t, j) == Sum(s, j) + Sum(t, j) && forall p :: Sum([p], j) == p[j]
  {
    if t == [] {
      assert s + t == s;
    } else {
      var n := |t| - 1;
      SumAppends(s, t[..n], j);
      assert (s + t)[..|s| + n] == s + t[..n];
    }
  }

  lemma {:induction false} SumBounds(s: seq<Point>, j: nat, low: int, high: int)
    requires j < NUM_DIMENSIONS && forall p :: p in s ==> low <= p[j] <= high
    ensures |s| * low <= Sum(s, j) <= |s| * high
  {
    if s != [] {
      var n := |s| - 1;
      SumBounds(s[..n], j, low, high);
      assert s[n] in s;
      OneMore(n, low);
      OneMore(n, high);
    }
  }

  lemma MeanBetween(sum: nat, n: nat, low: int, high: int)
    requires n > 0 && n * low <= sum <= n * high
    ensures low <= sum / n <= high
  {
    var q, r := sum / n, sum % n;
    assert sum == n * q + r && 0 <= r < n;
    if q < low {
      Times(n, q + 1, low);
      assert false;
    }
    if q > high {
      Times(n, high + 1, q);
      assert false;
    }
  }

  lemma OneMore(n: nat, x: int)
    ensures (n + 1) * x == n * x + x
  {
  }

  lemma Times(n: nat, x: int, y: int)
    requires x <= y
    ensures n * x <= n * y
  {
  }

  /** The mean colour of a window. */
  ghost predicate IsMean(s: seq<Point>, p: Point) {
    s != [] && forall j :: 0 <= j < NUM_DIMENSIONS ==> p[j] == Sum(s, j) / |s|
  }

  lemma MeanLevel(s: seq<Point>, j: nat, low: Point, high: Point)
    requires s != [] && j < NUM_DIMENSIONS && forall p :: p in s ==> InBox(p, low, high)
    ensures low[j] <= Sum(s, j) / |s| <= high[j]
  {
    forall p | p in s ensures low[j] <= p[j] <= high[j] {
      assert InBox(p, low, high);
    }
    SumBounds(s, j, low[j], high[j]);
    MeanBetween(Sum(s, j), |s|, low[j], high[j]);
  }

  method AddTo(sums: seq<nat>, p: Point) returns (r: seq<nat>)
    requires |sums| == NUM_DIMENSIONS
    ensures |r| == NUM_DIMENSIONS && forall j :: 0 <= j < NUM_DIMENSIONS ==> r[j] == sums[j] + p[j]
  {
    r := sums;
    for j := 0 to NUM_DIMENSIONS
      invariant |r| == NUM_DIMENSIONS
      invariant forall k :: 0 <= k < NUM_DIMENSIONS ==> r[k] == sums[k] + if k < j then p[k] else 0
    {
      r := r[j := r[j] + p[j]];
    }
  }

  /** The sums of the channels over a window. */
  method Sums(points: array<Point>, lo: nat, hi: nat) returns (sums: seq<nat>)
    requires lo < hi <= points.Length
    ensures |sums| == NUM_DIMENSIONS && forall j :: 0 <= j < NUM_DIMENSIONS ==> sums[j] == Sum(points[lo..hi], j)
  {
    sums := [0, 0, 0];
    for i := lo to hi
      invariant |sums| == NUM_DIMENSIONS && forall j :: 0 <= j < NUM_DIMENSIONS ==> sums[j] == Sum(points[lo..i], j)
    {
      assert points[lo..i + 1][..i - lo] == points[lo..i];
      sums := AddTo(sums, points[i]);
    }
  }

  lemma MeanLevels(s: seq<Point>, low: Point, high: Point)
    requires s != [] && Tight(s, low, high)
    ensures forall j :: 0 <= j < NUM_DIMENSIONS ==> low[j] <= Sum(s, j) / |s| <= high[j]
  {
    forall j | 0 <= j < NUM_DIMENSIONS ensures low[j] <= Sum(s, j) / |s| <= high[j] {
      MeanLevel(s, j, low, high);
    }
  }

  method Mean(points: array<Point>, b: Block) returns (p: Point)
    requires Fits(b, points.Length) && Tight(points[b.lo..b.hi], b.minCorner, b.maxCorner)
    ensures IsMean(points[b.lo..b.hi], p) && InBox(p, b.minCorner, b.maxCorner)
  {
    var sums := Sums(points, b.lo, b.hi);
    MeanLevels(points[b.lo..b.hi], b.minCorner, b.maxCorner);
    var n := b.hi - b.lo;
    p := [sums[0] / n, sums[1] / n, sums[2] / n];
  }

  // ------------------------------------------------------------------------ the quantiser

  /** One palette entry per part: the mean of the part, inside its box. */
  ghost predicate IsEntry(s: seq<Point>, b: Block, p: Point) {
    TightBlock(s, b) && IsMean(s[b.lo..b.hi], p) && InBox(p, b.minCorner, b.maxCorner)
  }

  ghost predicate PaletteOf(s: seq<Point>, parts: seq<Block>, palette: seq<Point>) {
    && NoDup(parts) && Tiles(|s|, Elements(parts)) && |palette| == |parts|
    && forall k :: 0 <= k < |parts| ==> IsEntry(s, parts[k], palette[k])
  }

  ghost predicate Partition(points: seq<Point>, pq: seq<Block>) {
    NoDup(pq) && Tiles(|points|, Elements(pq)) && AllTight(points, Elements(pq))
  }

  /** The block the heap gives out has extent, as long as colours outnumber blocks. */
  lemma PoppedHasExtent(s: seq<Point>, pq: seq<Block>, b: Block)
    requires Partition(s, pq) && |Elements(s)| > |pq|
    requires forall c :: c in pq ==> LongestSide(c) <= LongestSide(b)
    ensures LongestSide(b) > 0
  {
    NoDupCard(pq);
    SomeBlockHasExtent(s, Elements(pq));
  }

  lemma OneBlock(s: seq<Point>, b: Block)
    requires TightBlock(s, b) && b.lo == 0 && b.hi == |s|
    ensures Partition(s, [b])
  {
    assert Elements([b]) == {b};
    forall i | 0 <= i < |s| ensures Covers({b}, i) {
      assert b in {b};
    }
  }

  // ------------------------------------------------------------------- the splitting loop

  /** The guard of the loop. The block it looks at is in the last slot of the heap, not at its front. */
  predicate GoesOn(pq: seq<Block>, numColor: nat) {
    pq != [] && |pq| < numColor && pq[|pq| - 1].hi - pq[|pq| - 1].lo > 1
  }

  function Replaced(pq: seq<Block>, left: Block, right: Block): seq<Block>
    requires pq != []
  {
    Push(Push(Pop(pq, LongestSide), LongestSide, left), LongestSide, right)
  }

  /** One turn: a block with the longest side gives way to its halves. */
  ghost predicate Turns(pq: seq<Block>, r: seq<Block>) {
    pq != [] && exists left, right :: Halves(pq[0], left, right) && r == Replaced(pq, left, right)
  }

  ghost predicate TurnAt(run: seq<seq<Block>>, numColor: nat, i: nat)
    requires i + 1 < |run|
  {
    GoesOn(run[i], numColor) && Turns(run[i], run[i + 1])
  }

  ghost predicate HeapAt(s: seq<Point>, run: seq<seq<Block>>, i: nat)
    requires i < |run|
  {
    Heaped(run[i]) && Partition(s, run[i]) && |run[i]| == i + 1
  }

  /** The heaps after so many turns, from the one block of all the points; each partitions the points. */
  ghost predicate Cuts(s: seq<Point>, numColor: nat, run: seq<seq<Block>>) {
    && run != [] && |run[0]| == 1 && run[0][0].lo == 0 && run[0][0].hi == |s|
    && (forall i {:trigger HeapAt(s, run, i)} :: 0 <= i < |run| ==> HeapAt(s, run, i))
    && (forall i {:trigger TurnAt(run, numColor, i)} :: 0 <= i < |run| - 1 ==> TurnAt(run, numColor, i))
  }

  /** All the turns there are. */
  ghost predicate CutRun(s: seq<Point>, numColor: nat, run: seq<seq<Block>>) {
    Cuts(s, numColor, run) && !GoesOn(run[|run| - 1], numColor)
  }

  /** All blocks there ever were. */
  ghost function Past(run: seq<seq<Block>>): set<Block> {
    set i, b | 0 <= i < |run| && b in run[i] :: b
  }

  lemma PastGrows(run: seq<seq<Block>>, pq: seq<Block>)
    ensures Past(run + [pq]) == Past(run) + Elements(pq)
  {
    var more := run + [pq];
    forall b | b in Past(run) + Elements(pq) ensures b in Past(more) {
      if b in Elements(pq) {
        assert more[|run|] == pq;
      } else {
        var i :| 0 <= i < |run| && b in run[i];
        assert more[i] == run[i];
      }
    }
  }

  lemma ReplacedIs(pq: seq<Block>, left: Block, right: Block)
    requires pq != [] && Heaped(pq) && NoDup(pq)
    requires left !in Elements(pq) - {pq[0]} && right !in Elements(pq) - {pq[0]} && left != right
    ensures var r := Replaced(pq, left, right);
      Heaped(r) && NoDup(r) && |r| == |pq| + 1 && Elements(r) == Elements(pq) - {pq[0]} + {left, right}
  {
    var rest := Pop(pq, LongestSide);
    PopHeaps(pq, LongestSide);
    PoppedSet(pq, pq[0], rest);
    assert |pq| == |multiset(pq)| && |rest + [pq[0]]| == |multiset(rest + [pq[0]])|;
    PushHeaps(rest, LongestSide, left);
    var once := Push(rest, LongestSide, left);
    PushedSet(rest, left, once);
    PushHeaps(once, LongestSide, right);
    PushedSet(once, right, Push(once, LongestSide, right));
  }

  lemma ReplacedPartition(s: seq<Point>, pq: seq<Block>, past: set<Block>, left: Block, right: Block)
    requires pq != [] && Heaped(pq) && NoDup(pq) && Elements(pq) <= past
    requires left !in Elements(pq) - {pq[0]} && right !in Elements(pq) - {pq[0]} && left != right
    requires var now := Elements(pq) - {pq[0]} + {left, right};
      Tiles(|s|, now) && AllTight(s, past + {left, right}) && Nested(past + {left, right}, now)
    ensures var r := Replaced(pq, left, right);
      && Heaped(r) && Partition(s, r) && |r| == |pq| + 1
      && AllTight(s, past + Elements(r)) && Nested(past + Elements(r), Elements(r))
  {
    ReplacedIs(pq, left, right);
    assert past + Elements(Replaced(pq, left, right)) == past + {left, right};
  }

  lemma FrontHasExtent(s: seq<Point>, pq: seq<Block>)
    requires pq != [] && Heaped(pq) && Partition(s, pq) && |Elements(s)| > |pq|
    ensures pq[0] in Elements(pq) && LongestSide(pq[0]) > 0
  {
    PopHeaps(pq, LongestSide);
    PoppedHasExtent(s, pq, pq[0]);
  }

  method SplitLongest(points: array<Point>, pq: seq<Block>, ghost past: set<Block>) returns (r: seq<Block>)
    requires pq != [] && Heaped(pq) && Partition(points[..], pq) && |Elements(points[..])| > |pq|
    requires Elements(pq) <= past && AllTight(points[..], past) && Nested(past, Elements(pq))
    modifies points
    ensures multiset(points[..]) == multiset(old(points[..]))
    ensures Turns(pq, r) && Heaped(r) && Partition(points[..], r) && |r| == |pq| + 1
    ensures AllTight(points[..], past + Elements(r)) && Nested(past + Elements(r), Elements(r))
  {
    FrontHasExtent(points[..], pq);
    var left, right := Split(points, pq[0], Elements(pq), past);
    ReplacedPartition(points[..], pq, past, left, right);
    r := Replaced(pq, left, right);
  }

  lemma StillCuts(was: seq<Point>, now: seq<Point>, numColor: nat, run: seq<seq<Block>>)
    requires Cuts(was, numColor, run) && |now| == |was| && AllTight(now, Past(run))
    ensures Cuts(now, numColor, run)
  {
    forall i | 0 <= i < |run| ensures HeapAt(now, run, i) {
      assert HeapAt(was, run, i);
      forall b | b in Elements(run[i]) ensures b in Past(run) {
      }
    }
    forall i | 0 <= i < |run| - 1 ensures TurnAt(run, numColor, i) {
    }
  }

  lemma OneMoreCut(s: seq<Point>, numColor: nat, run: seq<seq<Block>>, pq: seq<Block>)
    requires Cuts(s, numColor, run) && GoesOn(run[|run| - 1], numColor) && Turns(run[|run| - 1], pq)
    requires Heaped(pq) && Partition(s, pq) && |pq| == |run| + 1
    ensures Cuts(s, numColor, run + [pq])
  {
    var more := run + [pq];
    forall i | 0 <= i < |more| ensures HeapAt(s, more, i) {
      assert i < |run| ==> HeapAt(s, run, i);
    }
    forall i | 0 <= i < |more| - 1 ensures TurnAt(more, numColor, i) {
      assert i < |run| - 1 ==> TurnAt(run, numColor, i);
    }
  }

  /** The run so far, with what the next turn relies on. */
  ghost predicate Going(s: seq<Point>, numColor: nat, run: seq<seq<Block>>) {
    && Cuts(s, numColor, run)
    && AllTight(s, Past(run)) && Nested(Past(run), Elements(run[|run| - 1]))
  }

  lemma GoesFurther(was: seq<Point>, now: seq<Point>, numColor: nat, run: seq<seq<Block>>, pq: seq<Block>)
    requires Cuts(was, numColor, run) && |now| == |was|
    requires GoesOn(run[|run| - 1], numColor) && Turns(run[|run| - 1], pq)
    requires Heaped(pq) && Partition(now, pq) && |pq| == |run| + 1
    requires AllTight(now, Past(run) + Elements(pq)) && Nested(Past(run) + Elements(pq), Elements(pq))
    ensures Going(now, numColor, run + [pq])
  {
    PastGrows(run, pq);
    StillCuts(was, now, numColor, run);
    OneMoreCut(now, numColor, run, pq);
    assert (run + [pq])[|run|] == pq;
  }

  lemma FirstCut(s: seq<Point>, numColor: nat, b: Block)
    requires TightBlock(s, b) && b.lo == 0 && b.hi == |s|
    ensures Going(s, numColor, [[b]])
  {
    OneBlock(s, b);
    var run := [[b]];
    assert HeapAt(s, run, 0);
    assert run[0] == [b] && b in run[0];
    assert Past(run) == {b} == Elements([b]);
  }

  lemma LastOfRun(s: seq<Point>, numColor: nat, run: seq<seq<Block>>)
    requires Cuts(s, numColor, run)
    ensures var pq := run[|run| - 1]; Heaped(pq) && Partition(s, pq) && |pq| == |run| && Elements(pq) <= Past(run)
  {
    assert HeapAt(s, run, |run| - 1);
    forall b | b in Elements(run[|run| - 1]) ensures b in Past(run) {
    }
  }

  /** The same colours, in whatever order. */
  lemma SameColours(s: seq<Point>, t: seq<Point>)
    requires multiset(s) == multiset(t)
    ensures Elements(s) == Elements(t) && |s| == |t|
  {
    SamePermutation(s, t);
    assert |s| == |multiset(s)| && |t| == |multiset(t)|;
  }

  /** The block of all the points. */
  method Initial(points: array<Point>) returns (b: Block)
    requires points[..] != []
    ensures TightBlock(points[..], b) && b.lo == 0 && b.hi == points.Length
  {
    b := Shrink(points, 0, points.Length);
    assert points[0..points.Length] == points[..] == points[..][0..|points[..]|];
  }

  method NextTurn(points: array<Point>, numColor: nat, pq: seq<Block>, ghost run: seq<seq<Block>>) returns (r: seq<Block>)
    requires Going(points[..], numColor, run) && pq == run[|run| - 1] && GoesOn(pq, numColor)
    requires |Elements(points[..])| > numColor
    modifies points
    ensures multiset(points[..]) == multiset(old(points[..]))
    ensures Going(points[..], numColor, run + [r]) && |r| == |pq| + 1
  {
    ghost var before := points[..];
    LastOfRun(before, numColor, run);
    r := SplitLongest(points, pq, Past(run));
    GoesFurther(before, points[..], numColor, run, r);
  }

  /** run are the heaps of the loop, the last of them its outcome. */
  method Blocks(points: array<Point>, numColor: nat) returns (pq: seq<Block>, ghost run: seq<seq<Block>>)
    requires numColor > 0 && |Elements(points[..])| > numColor
    modifies points
    ensures multiset(points[..]) == multiset(old(points[..]))
    ensures CutRun(points[..], numColor, run) && pq == run[|run| - 1] && 1 <= |pq| <= numColor
    ensures |pq| == numColor || pq[|pq| - 1].hi - pq[|pq| - 1].lo == 1
  {
    ghost var was := points[..];
    ElementsEmpty(was);
    var initial := Initial(points);
    pq, run := [initial], [[initial]];
    FirstCut(points[..], numColor, initial);
    while |pq| < numColor && pq[|pq| - 1].hi - pq[|pq| - 1].lo > 1
      invariant multiset(points[..]) == multiset(was) && Going(points[..], numColor, run)
      invariant pq == run[|run| - 1] && 1 <= |pq| <= numColor
      decreases numColor - |pq|
    {
      SameColours(points[..], was);
      pq := NextTurn(points, numColor, pq, run);
      run := run + [pq];
    }
    LastFits(points[..], numColor, run);
  }

  lemma LastFits(s: seq<Point>, numColor: nat, run: seq<seq<Block>>)
    requires Cuts(s, numColor, run)
    ensures var pq := run[|run| - 1]; pq != [] && pq[|pq| - 1].lo < pq[|pq| - 1].hi
  {
    LastOfRun(s, numColor, run);
    var pq := run[|run| - 1];
    assert pq[|pq| - 1] in Elements(pq);
  }

  /**
   * The palette of a run: one entry for each block of the last heap, in the order the heap gives them out,
   * the mean of the block.
   */
  ghost predicate PaletteOfRun(s: seq<Point>, run: seq<seq<Block>>, palette: seq<Point>) {
    run != [] && PaletteOf(s, Drained(run[|run| - 1], LongestSide), palette)
  }

  /** Some block of the last heap has a single point. */
  ghost predicate HasSingle(run: seq<seq<Block>>) {
    run != [] && exists b :: b in run[|run| - 1] && b.hi - b.lo == 1
  }

  /** A palette that is too short has the entry of a part with a single point. */
  lemma ShortHasSingle(s: seq<Point>, numColor: nat, run: seq<seq<Block>>, palette: seq<Point>)
    requires CutRun(s, numColor, run) && PaletteOfRun(s, run, palette) && |palette| < numColor
    ensures HasSingle(run)
  {
    LastFits(s, numColor, run);
    var pq := run[|run| - 1];
    DrainedLength(pq, LongestSide);
    assert pq[|pq| - 1] in pq;
  }

  method MedianCut(points: array<Point>, numColor: nat) returns (palette: seq<Point>, ghost run: seq<seq<Block>>)
    requires |Elements(points[..])| > numColor
    modifies points
    ensures multiset(points[..]) == multiset(old(points[..]))
    ensures numColor == 0 ==> palette == []
    ensures numColor > 0 ==> 1 <= |palette| <= numColor
    ensures numColor > 0 ==> CutRun(points[..], numColor, run) && PaletteOfRun(points[..], run, palette)
    ensures 0 < |palette| < numColor ==> HasSingle(run)
  {
    run := [];
    if numColor == 0 {
      return [], run;
    }
    var pq;
    pq, run := Blocks(points, numColor);
    LastOfRun(points[..], numColor, run);
    palette := Averages(points, pq, numColor);
    if |palette| < numColor {
      ShortHasSingle(points[..], numColor, run, palette);
    }
  }

  /** The parts given out so far and the heap of those still to come. */
  ghost predicate Halfway(blocks: seq<Block>, parts: seq<Block>, pq: seq<Block>) {
    && Heaped(pq) && NoDup(parts) && NoDup(pq) && Elements(parts) !! Elements(pq)
    && Elements(parts) + Elements(pq) == Elements(blocks) && |parts| + |pq| == |blocks|
    && parts + Drained(pq, LongestSide) == Drained(blocks, LongestSide)
  }

  lemma OnePartFurther(blocks: seq<Block>, parts: seq<Block>, pq: seq<Block>)
    requires Halfway(blocks, parts, pq) && pq != []
    ensures Halfway(blocks, parts + [pq[0]], Pop(pq, LongestSide)) && pq[0] in Elements(blocks)
  {
    var b, rest := pq[0], Pop(pq, LongestSide);
    PopHeaps(pq, LongestSide);
    PoppedSet(pq, b, rest);
    NextPart(parts, pq, b);
    Associate(parts, [b], Drained(rest, LongestSide));
  }

  lemma AllParts(blocks: seq<Block>, parts: seq<Block>)
    requires Halfway(blocks, parts, [])
    ensures parts == Drained(blocks, LongestSide) && NoDup(parts) && |parts| == |blocks| && Elements(parts) == Elements(blocks)
  {
    ElementsEmpty<Block>([]);
    assert parts + [] == parts;
  }

  method Averages(points: array<Point>, blocks: seq<Block>, numColor: nat) returns (palette: seq<Point>)
    requires Heaped(blocks) && Partition(points[..], blocks) && |blocks| <= numColor
    ensures |palette| == |blocks| && PaletteOf(points[..], Drained(blocks, LongestSide), palette)
  {
    ghost var s := points[..];
    var entries := new Point[numColor];
    var pq, n := blocks, 0;
    ghost var parts := [];
    while |pq| > 0
      invariant n == |parts| && fresh(entries) && points[..] == s && Halfway(blocks, parts, pq)
      invariant forall k :: 0 <= k < n ==> IsEntry(s, parts[k], entries[k])
      decreases |pq|
    {
      var b := pq[0];
      OnePartFurther(blocks, parts, pq);
      assert TightBlock(s, b) && s[b.lo..b.hi] == points[b.lo..b.hi];
      entries[n] := Mean(points, b);
      parts := parts + [b];
      pq, n := Pop(pq, LongestSide), n + 1;
    }
    AllParts(blocks, parts);
    palette := entries[..n];
  }

  lemma NextPart(parts: seq<Block>, pq: seq<Block>, b: Block)
    requires NoDup(parts) && Elements(parts) !! Elements(pq) && b in Elements(pq)
    ensures NoDup(parts + [b]) && Elements(parts + [b]) == Elements(parts) + {b}
  {
    ElementsAppend(parts, [b]);
    assert Elements([b]) == {b};
    assert forall i :: 0 <= i < |parts| ==> parts[i] in Elements(parts);
  }

  // ------------------------------------------------------------------------- the caller

  /** The 8-bit-per-channel key that colours are told apart by. */
  function Key(p: Point): int {
    (Coord(p, 0) / 256) * 65536 + (Coord(p, 1) / 256) * 256 + Coord(p, 2) / 256
  }

  ghost function Keys(s: seq<Point>): set<int> {
    set p | p in s :: Key(p)
  }

  lemma Digits(a: int, b: int, c: int, x: int, y: int, z: int)
    requires 0 <= a < 256 && 0 <= b < 256 && 0 <= c < 256 && 0 <= x < 256 && 0 <= y < 256 && 0 <= z < 256
    ensures a * 65536 + b * 256 + c == x * 65536 + y * 256 + z <==> a == x && b == y && c == z
  {
  }

  /** Two colours have one key exactly when they agree in the upper eight bits of every channel. */
  lemma KeySeparates(p: Point, q: Point)
    ensures Key(p) == Key(q) <==> forall j :: 0 <= j < NUM_DIMENSIONS ==> p[j] / 256 == q[j] / 256
  {
    Digits(p[0] / 256, p[1] / 256, p[2] / 256, q[0] / 256, q[1] / 256, q[2] / 256);
  }

  /** Colours that differ in their keys differ. */
  lemma KeysUndercount(s: seq<Point>)
    ensures |Keys(s)| <= |Elements(s)|
  {
    ImageCard(Key, Elements(s), Keys(s));
  }

  method Collect(pixels: seq<Point>) returns (points: array<Point>, colors: map<int, Point>)
    ensures fresh(points) && points[..] == pixels
    ensures colors.Keys == Keys(pixels) && forall k :: k in colors ==> colors[k] in pixels && Key(colors[k]) == k
  {
    points := new Point[|pixels|];
    colors := map[];
    for i := 0 to |pixels|
      invariant points[..i] == pixels[..i] && fresh(points)
      invariant colors.Keys == Keys(pixels[..i])
      invariant forall k :: k in colors ==> colors[k] in pixels && Key(colors[k]) == k
    {
      assert pixels[..i + 1] == pixels[..i] + [pixels[i]];
      assert Keys(pixels[..i + 1]) == Keys(pixels[..i]) + {Key(pixels[i])};
      colors := colors[Key(pixels[i]) := pixels[i]];
      points[i] := pixels[i];
    }
  }

  /** The colours of the map, in whatever order the runtime visits them. */
  method SomeColors(colors: map<int, Point>) returns (r: seq<Point>)
    requires forall k :: k in colors ==> Key(colors[k]) == k
    ensures |r| == |colors| && Keys(r) == colors.Keys && forall p :: p in r ==> p in colors.Values
  {
    r := [];
    var rest := colors.Keys;
    while rest != {}
      invariant rest <= colors.Keys && |r| + |rest| == |colors| && Keys(r) == colors.Keys - rest
      invariant forall p :: p in r ==> p in colors.Values
      decreases |rest|
    {
      SomeInt(rest);
      var k :| k in rest;
      assert Keys(r + [colors[k]]) == Keys(r) + {k};
      r := r + [colors[k]];
      rest := rest - {k};
    }
  }

  /** A median cut of the pixels, arranged by its sorting, has this palette. */
  ghost predicate Quantized(pixels: seq<Point>, numColor: nat, palette: seq<Point>) {
    exists s, run :: multiset(s) == multiset(pixels) && CutRun(s, numColor, run) && PaletteOfRun(s, run, palette)
  }

  /** The palette for the clipped rectangle's pixels; none if there are no pixels. */
  method Quantize(pixels: seq<Point>, numColor: nat) returns (palette: Option<seq<Point>>)
    ensures palette.None? <==> pixels == []
    ensures palette.Some? ==> |palette.value| <= numColor
    ensures palette.Some? && |Keys(pixels)| <= numColor ==>
              |palette.value| == |Keys(pixels)| && Keys(palette.value) == Keys(pixels)
              && forall p :: p in palette.value ==> p in pixels
    ensures palette.Some? && |Keys(pixels)| > numColor > 0 ==> palette.value != [] && Quantized(pixels, numColor, palette.value)
  {
    if pixels == [] {
      return None;
    }
    var points, colors := Collect(pixels);
    if |colors| <= numColor {
      var some := SomeColors(colors);
      return Some(some);
    }
    KeysUndercount(pixels);
    var cut; ghost var run;
    cut, run := MedianCut(points, numColor);
    return Some(cut);
  }
}
