/**
 * The transmit-limited gossip queue (memberlist/queue.go) as a value: the B-tree is
 * the sequence of its items in ascending order. What the queue has handed out and
 * finished so far is kept beside it.
 */
module GossipQueue {
  import opened Base

  const MAX_INT64: int := 0x7FFF_FFFF_FFFF_FFFF

  datatype Kind = Named(name: string) | Unique | Plain

  type Message = m: Bytes | |m| <= MAX_INT64

  datatype Broadcast = Broadcast(kind: Kind, message: Message) {
    /** The key in the name index; empty when there is none. */
    function Key(): string {
      if kind.Named? then kind.name else ""
    }
  }

  /** A queued broadcast; tag tells submissions apart as the item's address does. */
  datatype Item = Item(transmits: nat, msgLen: nat, id: nat, b: Broadcast, name: string, tag: nat)

  /** Fewer transmits first, then longer, then newer. */
  predicate Less(a: Item, b: Item) {
    if a.transmits != b.transmits then a.transmits < b.transmits
    else if a.msgLen != b.msgLen then a.msgLen > b.msgLen
    else a.id > b.id
  }

  predicate Equivalent(a: Item, b: Item) {
    !Less(a, b) && !Less(b, a)
  }

  // --------------------------------------------------------------------- the tree

  ghost predicate Sorted(tree: seq<Item>) {
    forall i, j :: 0 <= i < j < |tree| ==> Less(tree[i], tree[j])
  }

  /** ReplaceOrInsert. */
  function Insert(tree: seq<Item>, x: Item): seq<Item> {
    if tree == [] then [x]
    else if Less(x, tree[0]) then [x] + tree
    else if Less(tree[0], x) then [tree[0]] + Insert(tree[1..], x)
    else [x] + tree[1..]
  }

  /** Delete: removes whatever item is equivalent to x. */
  function Delete(tree: seq<Item>, x: Item): (r: seq<Item>)
    ensures |r| <= |tree|
    ensures x in tree ==> |r| < |tree|
  {
    if tree == [] then []
    else if Equivalent(tree[0], x) then tree[1..]
    else [tree[0]] + Delete(tree[1..], x)
  }

  /** The submissions held by a list of items, with multiplicity. */
  function Tags(s: seq<Item>): multiset<nat> {
    if s == [] then multiset{} else multiset{s[0].tag} + Tags(s[1..])
  }

  lemma {:induction false} InsertSorts(tree: seq<Item>, x: Item)
    requires Sorted(tree)
    ensures Sorted(Insert(tree, x))
    ensures forall y :: y in Insert(tree, x) <==> y == x || (y in tree && !Equivalent(y, x))
  {
    if tree != [] {
      InsertSorts(tree[1..], x);
      assert tree == [tree[0]] + tree[1..];
      forall y | y in tree[1..] ensures Less(tree[0], y) {
        var i :| 0 <= i < |tree| - 1 && tree[1..][i] == y;
        assert tree[i + 1] == y;
      }
    }
  }

  lemma {:induction false} InsertTags(tree: seq<Item>, x: Item)
    requires forall y :: y in tree ==> !Equivalent(y, x)
    ensures Tags(Insert(tree, x)) == Tags(tree) + multiset{x.tag}
  {
    if tree != [] {
      InsertTags(tree[1..], x);
      assert tree[0] in tree;
    }
  }

  lemma {:induction false} DeleteOrders(tree: seq<Item>, x: Item)
    requires Sorted(tree) && x in tree
    ensures Sorted(Delete(tree, x))
    ensures forall y :: y in Delete(tree, x) <==> y in tree && y != x
  {
    assert tree == [tree[0]] + tree[1..];
    forall y | y in tree[1..] ensures Less(tree[0], y) {
      var i :| 0 <= i < |tree| - 1 && tree[1..][i] == y;
      assert tree[i + 1] == y;
    }
    if !Equivalent(tree[0], x) {
      DeleteOrders(tree[1..], x);
    }
  }

  lemma {:induction false} DeleteTags(tree: seq<Item>, x: Item)
    requires Sorted(tree) && x in tree
    ensures Tags(tree) == Tags(Delete(tree, x)) + multiset{x.tag}
  {
    assert tree == [tree[0]] + tree[1..];
    if !Equivalent(tree[0], x) {
      DeleteTags(tree[1..], x);
    }
  }

  lemma DeleteSorts(tree: seq<Item>, x: Item)
    requires Sorted(tree) && x in tree
    ensures Sorted(Delete(tree, x))
    ensures forall y :: y in Delete(tree, x) <==> y in tree && y != x
    ensures Tags(tree) == Tags(Delete(tree, x)) + multiset{x.tag}
  {
    DeleteOrders(tree, x);
    DeleteTags(tree, x);
  }

  lemma {:induction false} TagsOfAppend(s: seq<Item>, x: Item)
    ensures Tags(s + [x]) == Tags(s) + multiset{x.tag}
  {
    if s != [] {
      TagsOfAppend(s[1..], x);
      assert (s + [x])[1..] == s[1..] + [x];
    } else {
      assert s + [x] == [x];
    }
  }

  // -------------------------------------------------------------------- the queue

  datatype Queue = Queue(
    tree: seq<Item>,
    names: map<string, Item>,
    idGen: nat,
    /** how many broadcasts have been submitted; their tags are the numbers below this */
    submitted: nat,
    /** the tags told Finished, and the tags handed out, each as often as it happened */
    finished: multiset<nat>,
    handed: multiset<nat>)

  const EMPTY := Queue([], map[], 0, 0, multiset{}, multiset{})

  function Finish(q: Queue, x: Item): Queue {
    q.(finished := q.finished + multiset{x.tag})
  }

  function DeleteItem(q: Queue, x: Item): Queue {
    var tree := Delete(q.tree, x);
    q.(tree := tree,
       names := if x.name != "" then q.names - {x.name} else q.names,
       idGen := if tree == [] then 0 else q.idGen)
  }

  function AddItem(q: Queue, x: Item): Queue {
    q.(tree := Insert(q.tree, x), names := if x.name != "" then q.names[x.name := x] else q.names)
  }

  function NextId(idGen: nat): nat {
    if idGen == MAX_INT64 then 1 else idGen + 1
  }

  function NewItem(q: Queue, b: Broadcast): Item {
    Item(0, |b.message|, NextId(q.idGen), b, b.Key(), q.submitted)
  }

  type Relation = (Broadcast, Broadcast) -> bool

  /** The queued items a new broadcast replaces: the namesake, or the plain ones it invalidates. */
  function Victims(q: Queue, b: Broadcast, invalidates: Relation): seq<Item> {
    if b.Key() != "" then
      if b.Key() in q.names then [q.names[b.Key()]] else []
    else if b.kind.Unique? then []
    else Invalidated(q.tree, b, invalidates)
  }

  function Invalidated(tree: seq<Item>, b: Broadcast, invalidates: Relation): seq<Item> {
    if tree == [] then []
    else
      var rest := Invalidated(tree[1..], b, invalidates);
      if tree[0].b.kind.Plain? && invalidates(b, tree[0].b) then [tree[0]] + rest else rest
  }

  /** Finish and delete the given items. */
  function Discard(q: Queue, xs: seq<Item>): Queue
    decreases |xs|
  {
    if xs == [] then q else Discard(DeleteItem(Finish(q, xs[0]), xs[0]), xs[1..])
  }

  /** The queue after the displaced items are gone and before the new one goes in. */
  function Cleared(q: Queue, b: Broadcast, invalidates: Relation): Queue {
    Discard(q.(idGen := NextId(q.idGen), submitted := q.submitted + 1), Victims(q, b, invalidates))
  }

  function Enqueue(q: Queue, b: Broadcast, invalidates: Relation): Queue {
    AddItem(Cleared(q, b, invalidates), NewItem(q, b))
  }

  // ---------------------------------------------------------------- handing out

  /** The state of one packing call: the tier it is on, bytes used, items sent and items to go back in. */
  datatype Pack = Pack(q: Queue, tier: nat, used: int, sent: seq<Item>, later: seq<Item>)

  datatype Budget = Budget(overhead: nat, limit: int, transmits: int)

  function Free(p: Pack, c: Budget): int {
    c.limit - p.used - c.overhead
  }

  /** The bounds of the range scan of a tier. */
  function From(tier: nat, free: nat): Item {
    Item(tier, free, MAX_INT64, Broadcast(Plain, []), "", 0)
  }

  function To(tier: nat): Item {
    Item(tier + 1, MAX_INT64, MAX_INT64, Broadcast(Plain, []), "", 0)
  }

  /** AscendRange: the first item of the range whose message fits. */
  function Scan(tree: seq<Item>, tier: nat, free: nat): (r: Option<Item>)
    ensures r.Some? ==> r.value in tree
  {
    if tree == [] then None
    else if !Less(tree[0], From(tier, free)) && Less(tree[0], To(tier)) && |tree[0].b.message| <= free then Some(tree[0])
    else Scan(tree[1..], tier, free)
  }

  /** The queue once x is handed out and no longer in it. */
  function HandOut(q: Queue, x: Item): Queue {
    DeleteItem(q.(handed := q.handed + multiset{x.tag}), x)
  }

  /** Hand out x: it leaves the queue, for good if it has reached its limit. */
  function Take(p: Pack, x: Item, c: Budget): Pack {
    var q := HandOut(p.q, x);
    var p1 := p.(used := p.used + c.overhead + |x.b.message|, sent := p.sent + [x]);
    if x.transmits + 1 >= c.transmits then p1.(q := Finish(q, x))
    else p1.(q := q, later := p.later + [x.(transmits := x.transmits + 1)])
  }

  /** One turn of the loop. */
  function Turn(p: Pack, c: Budget): (r: Pack)
    requires 0 < Free(p, c)
    ensures r.tier > p.tier || (r.tier == p.tier && |r.q.tree| < |p.q.tree|)
  {
    match Scan(p.q.tree, p.tier, Free(p, c))
    case None => p.(tier := p.tier + 1)
    case Some(x) => Take(p, x, c)
  }

  /** Tier by tier, as long as something fits. */
  function Drain(p: Pack, maxTier: nat, c: Budget): Pack
    decreases maxTier + 1 - p.tier, |p.q.tree|
  {
    if p.tier > maxTier || Free(p, c) <= 0 then p else Drain(Turn(p, c), maxTier, c)
  }

  lemma DrainTurns(p: Pack, maxTier: nat, c: Budget)
    requires p.tier <= maxTier && 0 < Free(p, c)
    ensures Drain(p, maxTier, c) == Drain(Turn(p, c), maxTier, c)
  {
  }

  /** Put the items back in turn. */
  function AddAll(q: Queue, xs: seq<Item>): Queue
    decreases |xs|
  {
    if xs == [] then q else AddAll(AddItem(q, xs[0]), xs[1..])
  }

  function Packed(q: Queue, c: Budget): Pack {
    if q.tree == [] then Pack(q, 0, 0, [], [])
    else Drain(Pack(q, q.tree[0].transmits, 0, [], []), q.tree[|q.tree| - 1].transmits, c)
  }

  function GetBroadcasts(q: Queue, c: Budget): Queue {
    AddAll(Packed(q, c).q, Packed(q, c).later)
  }

  /** Drop the last items until at most n remain. */
  function Prune(q: Queue, n: int): Queue
    decreases |q.tree|
  {
    if |q.tree| <= n || q.tree == [] then q
    else
      var x := q.tree[|q.tree| - 1];
      Prune(DeleteItem(Finish(q, x), x), n)
  }

  /** Everything is finished and the queue starts afresh. */
  function Reset(q: Queue): Queue {
    q.(tree := [], names := map[], idGen := 0, finished := q.finished + Tags(q.tree))
  }

  // ------------------------------------------------------ every queue is in order

  predicate ItemOk(x: Item) {
    x.msgLen == |x.b.message| && 1 <= x.id <= MAX_INT64 && x.name == x.b.Key()
  }

  /** In order, with honest lengths and ids: all that the range scan relies on. */
  ghost predicate Ordered(q: Queue) {
    Sorted(q.tree) && (forall x :: x in q.tree ==> ItemOk(x)) && q.idGen <= MAX_INT64
  }

  lemma {:induction false} DeleteKeepsOrder(tree: seq<Item>, x: Item)
    requires Sorted(tree)
    ensures Sorted(Delete(tree, x)) && forall y :: y in Delete(tree, x) ==> y in tree
  {
    if tree != [] && !Equivalent(tree[0], x) {
      DeleteKeepsOrder(tree[1..], x);
      forall y | y in Delete(tree[1..], x) ensures Less(tree[0], y) {
        var i :| 0 <= i < |tree| - 1 && tree[1..][i] == y;
        assert tree[i + 1] == y;
      }
    }
  }

  lemma DeleteItemOrders(q: Queue, x: Item)
    requires Ordered(q)
    ensures Ordered(DeleteItem(q, x))
  {
    DeleteKeepsOrder(q.tree, x);
  }

  lemma AddItemOrders(q: Queue, x: Item)
    requires Ordered(q) && ItemOk(x)
    ensures Ordered(AddItem(q, x))
  {
    InsertSorts(q.tree, x);
  }

  lemma {:induction false} DiscardOrders(q: Queue, xs: seq<Item>)
    requires Ordered(q)
    ensures Ordered(Discard(q, xs))
    decreases |xs|
  {
    if xs != [] {
      DeleteItemOrders(Finish(q, xs[0]), xs[0]);
      DiscardOrders(DeleteItem(Finish(q, xs[0]), xs[0]), xs[1..]);
    }
  }

  lemma EnqueueOrders(q: Queue, b: Broadcast, invalidates: Relation)
    requires Ordered(q)
    ensures Ordered(Enqueue(q, b, invalidates))
  {
    DiscardOrders(q.(idGen := NextId(q.idGen), submitted := q.submitted + 1), Victims(q, b, invalidates));
    AddItemOrders(Cleared(q, b, invalidates), NewItem(q, b));
  }

  ghost predicate PackOrdered(p: Pack) {
    Ordered(p.q) && forall x :: x in p.later ==> ItemOk(x)
  }

  lemma {:induction false} DrainOrders(p: Pack, maxTier: nat, c: Budget)
    requires PackOrdered(p)
    ensures PackOrdered(Drain(p, maxTier, c))
    decreases maxTier + 1 - p.tier, |p.q.tree|
  {
    if !(p.tier > maxTier || Free(p, c) <= 0) {
      match Scan(p.q.tree, p.tier, Free(p, c)) {
        case None =>
        case Some(x) => TakeOrders(p, x, c);
      }
      DrainOrders(Turn(p, c), maxTier, c);
    }
  }

  lemma TakeOrders(p: Pack, x: Item, c: Budget)
    requires PackOrdered(p) && x in p.q.tree
    ensures PackOrdered(Take(p, x, c))
  {
    DeleteItemOrders(p.q.(handed := p.q.handed + multiset{x.tag}), x);
  }

  lemma {:induction false} AddAllOrders(q: Queue, xs: seq<Item>)
    requires Ordered(q) && forall x :: x in xs ==> ItemOk(x)
    ensures Ordered(AddAll(q, xs))
    decreases |xs|
  {
    if xs != [] {
      AddItemOrders(q, xs[0]);
      AddAllOrders(AddItem(q, xs[0]), xs[1..]);
    }
  }

  lemma GetBroadcastsOrders(q: Queue, c: Budget)
    requires Ordered(q)
    ensures Ordered(GetBroadcasts(q, c))
  {
    if q.tree != [] {
      DrainOrders(Pack(q, q.tree[0].transmits, 0, [], []), q.tree[|q.tree| - 1].transmits, c);
    }
    AddAllOrders(Packed(q, c).q, Packed(q, c).later);
  }

  lemma {:induction false} PruneOrders(q: Queue, n: int)
    requires Ordered(q)
    ensures Ordered(Prune(q, n))
    decreases |q.tree|
  {
    if !(|q.tree| <= n || q.tree == []) {
      var x := q.tree[|q.tree| - 1];
      DeleteItemOrders(Finish(q, x), x);
      PruneOrders(DeleteItem(Finish(q, x), x), n);
    }
  }

  /** What survives is the front of the queue: the freshest. */
  lemma {:induction false} PruneKeepsTheFront(q: Queue, n: int)
    requires Sorted(q.tree)
    ensures Prune(q, n).tree == if |q.tree| <= n then q.tree else if n < 0 then [] else q.tree[..n]
    decreases |q.tree|
  {
    if !(|q.tree| <= n || q.tree == []) {
      var x := q.tree[|q.tree| - 1];
      DeleteLast(q.tree);
      PruneKeepsTheFront(DeleteItem(Finish(q, x), x), n);
    }
  }

  lemma {:induction false} DeleteLast(tree: seq<Item>)
    requires Sorted(tree) && tree != []
    ensures Delete(tree, tree[|tree| - 1]) == tree[..|tree| - 1]
  {
    if |tree| > 1 {
      assert Less(tree[0], tree[|tree| - 1]);
      DeleteLast(tree[1..]);
    }
  }

  // ------------------------------------------------------- what one call hands out

  predicate Fits(x: Item, tier: nat, free: int) {
    x.transmits == tier && x.msgLen <= free
  }

  /** The range scan covers exactly the items of its tier that fit. */
  lemma RangeIsTheFittingTier(x: Item, tier: nat, free: nat)
    requires ItemOk(x)
    ensures !Less(x, From(tier, free)) && Less(x, To(tier)) <==> Fits(x, tier, free)
  {
  }

  lemma {:induction false} ScanFinds(tree: seq<Item>, tier: nat, free: nat)
    requires Sorted(tree) && forall x :: x in tree ==> ItemOk(x)
    ensures match Scan(tree, tier, free)
      case None => forall y :: y in tree ==> !Fits(y, tier, free)
      case Some(x) => Fits(x, tier, free) && forall y :: y in tree && Fits(y, tier, free) ==> y == x || Less(x, y)
  {
    if tree != [] {
      RangeIsTheFittingTier(tree[0], tier, free);
      ScanFinds(tree[1..], tier, free);
      assert tree == [tree[0]] + tree[1..];
      forall y | y in tree[1..] ensures Less(tree[0], y) {
        var i :| 0 <= i < |tree| - 1 && tree[1..][i] == y;
        assert tree[i + 1] == y;
      }
    }
  }

  /**
   * Part way through a call: what was sent is in order, none of it is still held, and
   * nothing the sweep has passed by would fit.
   */
  ghost predicate Swept(held: set<Item>, tier: nat, free: int, sent: seq<Item>) {
    && Sorted(sent)
    && (forall y, s :: y in held && s in sent ==> !Equivalent(y, s))
    && (forall s :: s in sent ==> s.transmits <= tier)
    && (forall y :: y in held && (y.transmits < tier || (sent != [] && Less(y, sent[|sent| - 1]))) ==> y.msgLen > free)
  }

  lemma SweptTier(held: set<Item>, tier: nat, free: int, sent: seq<Item>)
    requires Swept(held, tier, free, sent) && forall y :: y in held ==> !Fits(y, tier, free)
    ensures Swept(held, tier + 1, free, sent)
  {
  }

  lemma SweptTake(held: set<Item>, tier: nat, free: int, sent: seq<Item>, x: Item, free2: int)
    requires Swept(held, tier, free, sent) && x in held && Fits(x, tier, free) && free2 <= free
    requires forall y :: y in held && y != x ==> !Equivalent(y, x) && (Fits(y, tier, free) ==> Less(x, y))
    ensures Swept(held - {x}, tier, free2, sent + [x])
  {
    forall i | 0 <= i < |sent| ensures Less(sent[i], x) {
      var last := sent[|sent| - 1];
      assert last in sent && !Equivalent(x, last) && !Less(x, last);
      assert i < |sent| - 1 ==> Less(sent[i], last);
    }
  }

  /** The bytes a list of items takes up, overhead included. */
  function Cost(xs: seq<Item>, overhead: nat): nat {
    if xs == [] then 0 else overhead + |xs[0].b.message| + Cost(xs[1..], overhead)
  }

  lemma {:induction false} CostOfAppend(xs: seq<Item>, x: Item, overhead: nat)
    ensures Cost(xs + [x], overhead) == Cost(xs, overhead) + overhead + |x.b.message|
  {
    if xs == [] {
      assert xs + [x] == [x];
    } else {
      CostOfAppend(xs[1..], x, overhead);
      assert (xs + [x])[1..] == xs[1..] + [x];
    }
  }

  ghost predicate TreeFits(tree: seq<Item>) {
    Sorted(tree) && forall x :: x in tree ==> ItemOk(x)
  }

  /** What has been used is the cost of what was sent, within the limit, and so was it before the last message. */
  ghost predicate CostFits(used: int, sent: seq<Item>, c: Budget) {
    && used == Cost(sent, c.overhead)
    && (sent != [] ==> used <= c.limit && used - |sent[|sent| - 1].b.message| < c.limit)
  }

  ghost predicate PackFits(p: Pack, c: Budget) {
    TreeFits(p.q.tree) && Swept(Elements(p.q.tree), p.tier, Free(p, c), p.sent) && CostFits(p.used, p.sent, c)
  }

  /** Everything the call found in the queue, sent or not. */
  ghost function Seen(p: Pack): set<Item> {
    Elements(p.q.tree) + Elements(p.sent)
  }

  lemma TakeKeepsTree(tree: seq<Item>, x: Item)
    requires TreeFits(tree) && x in tree
    ensures TreeFits(Delete(tree, x)) && Elements(Delete(tree, x)) == Elements(tree) - {x}
  {
    DeleteOrders(tree, x);
  }

  /** The scan finds the least of those that fit, and no other is equivalent to it. */
  lemma ScanFindsLeast(tree: seq<Item>, tier: nat, free: nat, x: Item)
    requires TreeFits(tree) && Scan(tree, tier, free) == Some(x)
    ensures x in tree && Fits(x, tier, free)
    ensures forall y :: y in Elements(tree) && y != x ==> !Equivalent(y, x) && (Fits(y, tier, free) ==> Less(x, y))
  {
    ScanFinds(tree, tier, free);
    SortedApart(tree, x);
  }

  lemma TakeCosts(used: int, sent: seq<Item>, x: Item, c: Budget)
    requires CostFits(used, sent, c) && used + c.overhead < c.limit && |x.b.message| <= c.limit - used - c.overhead
    ensures CostFits(used + c.overhead + |x.b.message|, sent + [x], c)
  {
    CostOfAppend(sent, x, c.overhead);
  }

  lemma TakeMoves(p: Pack, x: Item, c: Budget)
    ensures var r := Take(p, x, c);
      && r.q.tree == Delete(p.q.tree, x) && r.tier == p.tier
      && r.used == p.used + c.overhead + |x.b.message| && r.sent == p.sent + [x]
  {
  }

  lemma TakeFits(p: Pack, x: Item, c: Budget)
    requires PackFits(p, c) && 0 < Free(p, c) && Scan(p.q.tree, p.tier, Free(p, c)) == Some(x)
    ensures PackFits(Take(p, x, c), c)
    ensures Elements(Take(p, x, c).q.tree) == Elements(p.q.tree) - {x}
  {
    var free := Free(p, c);
    TakeMoves(p, x, c);
    ScanFindsLeast(p.q.tree, p.tier, free, x);
    TakeKeepsTree(p.q.tree, x);
    SweptTake(Elements(p.q.tree), p.tier, free, p.sent, x, free - c.overhead - |x.b.message|);
    TakeCosts(p.used, p.sent, x, c);
  }

  lemma SortedApart(tree: seq<Item>, x: Item)
    requires Sorted(tree) && x in tree
    ensures forall y :: y in tree && y != x ==> !Equivalent(y, x)
  {
  }

  lemma NextTierFits(p: Pack, c: Budget)
    requires PackFits(p, c) && 0 < Free(p, c) && Scan(p.q.tree, p.tier, Free(p, c)) == None
    ensures PackFits(p.(tier := p.tier + 1), c)
  {
    ScanFinds(p.q.tree, p.tier, Free(p, c));
    SweptTier(Elements(p.q.tree), p.tier, Free(p, c), p.sent);
  }

  /** Where a call stops: the last tier is behind it, or no byte is free. */
  ghost predicate Stopped(p: Pack, maxTier: nat, c: Budget) {
    p.tier > maxTier || Free(p, c) <= 0
  }

  lemma TakeSees(p: Pack, x: Item, c: Budget)
    requires x in p.q.tree && Elements(Take(p, x, c).q.tree) == Elements(p.q.tree) - {x}
    ensures Seen(Take(p, x, c)) == Seen(p)
  {
    assert Elements(p.sent + [x]) == Elements(p.sent) + {x};
    assert x in Elements(p.q.tree);
  }

  lemma TurnFits(p: Pack, c: Budget)
    requires PackFits(p, c) && 0 < Free(p, c)
    ensures PackFits(Turn(p, c), c) && Seen(Turn(p, c)) == Seen(p)
  {
    match Scan(p.q.tree, p.tier, Free(p, c))
    case None => NextTierFits(p, c);
    case Some(x) =>
      TakeFits(p, x, c);
      TakeSees(p, x, c);
  }

  lemma {:induction false} DrainFits(p: Pack, maxTier: nat, c: Budget)
    requires PackFits(p, c)
    ensures PackFits(Drain(p, maxTier, c), c) && Stopped(Drain(p, maxTier, c), maxTier, c)
    ensures Seen(Drain(p, maxTier, c)) == Seen(p)
    decreases maxTier + 1 - p.tier, |p.q.tree|
  {
    if !Stopped(p, maxTier, c) {
      TurnFits(p, c);
      DrainFits(Turn(p, c), maxTier, c);
    }
  }

  /** No item left behind would still fit; an empty one only because no byte is free. */
  ghost predicate NothingFits(p: Pack, c: Budget) {
    forall y :: y in p.q.tree && (y.msgLen >= 1 || Free(p, c) > 0) ==> y.msgLen > Free(p, c)
  }

  lemma StartFits(q: Queue, tier: nat, c: Budget)
    requires Ordered(q) && forall x :: x in q.tree ==> tier <= x.transmits
    ensures PackFits(Pack(q, tier, 0, [], []), c)
  {
  }

  lemma PackedFits(q: Queue, c: Budget)
    requires Ordered(q)
    ensures PackFits(Packed(q, c), c) && Seen(Packed(q, c)) == Elements(q.tree)
    ensures NothingFits(Packed(q, c), c) && Elements(Packed(q, c).q.tree) !! Elements(Packed(q, c).sent)
  {
    if q.tree == [] {
      StartFits(q, 0, c);
    } else {
      var tier, maxTier := q.tree[0].transmits, q.tree[|q.tree| - 1].transmits;
      TierBounds(q.tree);
      StartFits(q, tier, c);
      var p0 := Pack(q, tier, 0, [], []);
      DrainFits(p0, maxTier, c);
      AllSwept(Drain(p0, maxTier, c), maxTier, c, q.tree);
    }
  }

  /**
   * One call: what it hands out comes from the queue, in order, each at most once; with
   * overhead it stays within the limit; and no item left behind would still fit, unless it
   * is empty and no byte is free.
   */
  ghost predicate Packs(q: Queue, c: Budget) {
    var p := Packed(q, c);
    && Sorted(p.sent)
    && Elements(p.q.tree) + Elements(p.sent) == Elements(q.tree)
    && Elements(p.q.tree) !! Elements(p.sent)
    && (p.sent != [] ==> Cost(p.sent, c.overhead) <= c.limit)
    && forall y :: y in p.q.tree && (y.msgLen >= 1 || Free(p, c) > 0) ==>
         Cost(p.sent, c.overhead) + c.overhead + y.msgLen > c.limit
  }

  lemma GetBroadcastsFits(q: Queue, c: Budget)
    requires Ordered(q)
    ensures Packs(q, c)
  {
    PackedFits(q, c);
  }

  lemma TierBounds(tree: seq<Item>)
    requires Sorted(tree) && tree != []
    ensures forall x :: x in tree ==> tree[0].transmits <= x.transmits <= tree[|tree| - 1].transmits
  {
    forall x | x in tree ensures tree[0].transmits <= x.transmits <= tree[|tree| - 1].transmits {
      var i :| 0 <= i < |tree| && tree[i] == x;
      assert i > 0 ==> Less(tree[0], x);
      assert i < |tree| - 1 ==> Less(x, tree[|tree| - 1]);
    }
  }

  lemma AllSwept(p: Pack, maxTier: nat, c: Budget, tree: seq<Item>)
    requires PackFits(p, c) && Stopped(p, maxTier, c) && Elements(p.q.tree) <= Elements(tree)
    requires forall x :: x in tree ==> x.transmits <= maxTier
    ensures NothingFits(p, c)
    ensures Elements(p.q.tree) !! Elements(p.sent)
  {
    forall y | y in p.q.tree && (y.msgLen >= 1 || Free(p, c) > 0) ensures y.msgLen > Free(p, c) {
      assert y in Elements(p.q.tree);
    }
    forall y | y in Elements(p.q.tree) ensures y !in p.sent {
      assert Equivalent(y, y);
    }
  }

  // ------------------------------------------ when everything goes out in one call

  lemma {:induction false} CostOfInsert(xs: seq<Item>, x: Item, overhead: nat)
    requires forall y :: y in xs ==> !Equivalent(y, x)
    ensures Cost(Insert(xs, x), overhead) == Cost(xs, overhead) + overhead + |x.b.message|
  {
    if xs != [] {
      CostOfInsert(xs[1..], x, overhead);
      assert xs[0] in xs;
    }
  }

  lemma SortedHead(s: seq<Item>, t: seq<Item>)
    requires Sorted(s) && Sorted(t) && s != [] && t != [] && Elements(s) <= Elements(t)
    ensures s[0] == t[0] ==> Elements(s[1..]) <= Elements(t[1..])
    ensures s[0] != t[0] ==> Elements(s) <= Elements(t[1..])
  {
    forall y | y in Elements(s) && (y != s[0] || s[0] != t[0]) ensures y in Elements(t[1..]) {
      var i :| 0 <= i < |s| && s[i] == y;
      var j :| 0 <= j < |t| && t[j] == y;
      assert s[0] in Elements(t);
      assert j > 0 ==> t[1..][j - 1] == y;
    }
    if s[0] == t[0] {
      forall y | y in Elements(s[1..]) ensures y in Elements(t[1..]) {
        var i :| 0 <= i < |s| - 1 && s[1..][i] == y;
        assert Less(s[0], s[i + 1]);
      }
    }
  }

  /** A part of the queue costs no more than the whole. */
  lemma {:induction false} CostOfPart(s: seq<Item>, t: seq<Item>, overhead: nat)
    requires Sorted(s) && Sorted(t) && Elements(s) <= Elements(t)
    ensures Cost(s, overhead) <= Cost(t, overhead)
    ensures Elements(t) <= Elements(s) ==> s == t
  {
    ElementsEmpty(s);
    ElementsEmpty(t);
    if s != [] {
      assert t != [];
      SortedHead(s, t);
      if s[0] == t[0] {
        CostOfPart(s[1..], t[1..], overhead);
        if Elements(t) <= Elements(s) {
          SortedHead(t, s);
        }
      } else {
        CostOfPart(s, t[1..], overhead);
        assert t[0] in Elements(t) && t[0] !in Elements(t[1..]);
      }
    }
  }

  /** The call takes the last item out while some wait to go back in, so the id generator restarts under them. */
  ghost predicate EmptiedUnder(p: Pack) {
    p.q.tree == [] && p.later != []
  }

  /** Items go back in exactly for what was sent and may be sent again. */
  ghost predicate LaterMatches(p: Pack, c: Budget) {
    p.later != [] <==> exists s :: s in p.sent && s.transmits + 1 < c.transmits
  }

  lemma {:induction false} DrainLater(p: Pack, maxTier: nat, c: Budget)
    requires LaterMatches(p, c)
    ensures LaterMatches(Drain(p, maxTier, c), c)
    decreases maxTier + 1 - p.tier, |p.q.tree|
  {
    if !Stopped(p, maxTier, c) {
      var r := Turn(p, c);
      match Scan(p.q.tree, p.tier, Free(p, c)) {
        case None =>
        case Some(x) => assert x in r.sent && forall s :: s in r.sent <==> s in p.sent || s == x;
      }
      DrainLater(r, maxTier, c);
    }
  }

  lemma PackedLater(q: Queue, c: Budget)
    ensures LaterMatches(Packed(q, c), c)
  {
    if q.tree != [] {
      DrainLater(Pack(q, q.tree[0].transmits, 0, [], []), q.tree[|q.tree| - 1].transmits, c);
    }
  }

  /**
   * All of the queue fits a call. A byte must be free for the call to go on, so an empty
   * message at the very end needs one more than it takes.
   */
  predicate AllFits(tree: seq<Item>, c: Budget)
    requires tree != []
  {
    Cost(tree, c.overhead) + (if tree[|tree| - 1].b.message == [] then 1 else 0) <= c.limit
  }

  /** The whole queue goes out in one call exactly when all of it fits. */
  lemma DrainedIffAllFits(q: Queue, c: Budget)
    requires Ordered(q) && q.tree != []
    ensures Packed(q, c).q.tree == [] <==> AllFits(q.tree, c)
    ensures Packed(q, c).q.tree == [] ==> Packed(q, c).sent == q.tree
  {
    var p := Packed(q, c);
    PackedFits(q, c);
    ElementsEmpty(p.q.tree);
    CostOfPart(p.sent, q.tree, c.overhead);
    if p.q.tree == [] {
      ElementsEmpty(q.tree);
    } else {
      var y := p.q.tree[0];
      assert y in Elements(p.q.tree) && y in Elements(q.tree) && y in q.tree;
      OneMoreCosts(p, q.tree, y, c);
      if y.msgLen == 0 {
        EmptyOneLeft(p, q.tree, y, c);
      }
    }
  }

  /** An empty item is left behind only where not all fits. */
  lemma EmptyOneLeft(p: Pack, tree: seq<Item>, y: Item, c: Budget)
    requires PackFits(p, c) && NothingFits(p, c) && Sorted(tree) && tree != []
    requires y in p.q.tree && y in tree && ItemOk(y) && y.msgLen == 0 && ItemOk(tree[|tree| - 1])
    requires Elements(p.q.tree) + Elements(p.sent) == Elements(tree)
    ensures !AllFits(tree, c)
  {
    var z := tree[|tree| - 1];
    assert z in Elements(tree) && y in Elements(p.q.tree);
    OneMoreCosts(p, tree, y, c);
    if z in Elements(p.q.tree) {
      OneMoreCosts(p, tree, z, c);
    } else {
      var i :| 0 <= i < |tree| && tree[i] == y;
      assert y == z || Less(y, z);
      LastOfPart(p.sent, tree);
    }
  }

  lemma LastOfPart(s: seq<Item>, t: seq<Item>)
    requires Sorted(s) && Sorted(t) && t != [] && Elements(s) <= Elements(t) && t[|t| - 1] in s
    ensures s[|s| - 1] == t[|t| - 1]
  {
    var z, w := t[|t| - 1], s[|s| - 1];
    assert w in Elements(s) && w in Elements(t);
    var i :| 0 <= i < |t| && t[i] == w;
    var j :| 0 <= j < |s| && s[j] == z;
  }

  lemma OneMoreCosts(p: Pack, tree: seq<Item>, y: Item, c: Budget)
    requires PackFits(p, c) && Sorted(tree) && Elements(p.sent) <= Elements(tree)
    requires y in p.q.tree && y in tree && ItemOk(y)
    ensures Cost(p.sent, c.overhead) + c.overhead + y.msgLen <= Cost(tree, c.overhead)
  {
    forall s | s in p.sent ensures !Equivalent(s, y) {
      assert y in Elements(p.q.tree);
    }
    InsertSorts(p.sent, y);
    CostOfInsert(p.sent, y, c.overhead);
    CostOfPart(Insert(p.sent, y), tree, c.overhead);
  }

  /**
   * So a caller can tell beforehand: the generator restarts under waiting items exactly
   * when the whole queue fits the call and some item has transmissions left.
   */
  lemma EmptiedUnderIff(q: Queue, c: Budget)
    requires Ordered(q)
    ensures EmptiedUnder(Packed(q, c)) <==>
      q.tree != [] && AllFits(q.tree, c) && exists x :: x in q.tree && x.transmits + 1 < c.transmits
  {
    PackedLater(q, c);
    if q.tree != [] {
      DrainedIffAllFits(q, c);
    }
  }

  // ------------------------------------------------------------------------ runs

  datatype Op =
    | Submit(b: Broadcast)
    | Give(overhead: nat, limit: int)
    | Cut(n: int)
    | Wipe

  function Apply(q: Queue, op: Op, invalidates: Relation, transmits: int): Queue {
    match op
    case Submit(b) => Enqueue(q, b, invalidates)
    case Give(overhead, limit) => GetBroadcasts(q, Budget(overhead, limit, transmits))
    case Cut(n) => Prune(q, n)
    case Wipe => Reset(q)
  }

  function Run(ops: seq<Op>, invalidates: Relation, transmits: int): Queue {
    if ops == [] then EMPTY
    else Apply(Run(ops[..|ops| - 1], invalidates, transmits), ops[|ops| - 1], invalidates, transmits)
  }

  lemma ApplyOrders(q: Queue, op: Op, invalidates: Relation, transmits: int)
    requires Ordered(q)
    ensures Ordered(Apply(q, op, invalidates, transmits))
  {
    match op
    case Submit(b) => EnqueueOrders(q, b, invalidates);
    case Give(overhead, limit) => GetBroadcastsOrders(q, Budget(overhead, limit, transmits));
    case Cut(n) => PruneOrders(q, n);
    case Wipe =>
  }

  /** Every run whatever, restarts and wraps included, leaves the queue in order. */
  lemma {:induction false} RunOrders(ops: seq<Op>, invalidates: Relation, transmits: int)
    ensures Ordered(Run(ops, invalidates, transmits))
  {
    if ops != [] {
      RunOrders(ops[..|ops| - 1], invalidates, transmits);
      ApplyOrders(Run(ops[..|ops| - 1], invalidates, transmits), ops[|ops| - 1], invalidates, transmits);
    }
  }

  /** So the packing guarantee holds for the next call after every run. */
  lemma RunPacks(ops: seq<Op>, invalidates: Relation, transmits: int, c: Budget)
    ensures Packs(Run(ops, invalidates, transmits), c)
  {
    RunOrders(ops, invalidates, transmits);
    GetBroadcastsFits(Run(ops, invalidates, transmits), c);
  }
}
