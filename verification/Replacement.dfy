/** Which queued broadcasts a new one replaces, in one submission and over every run of the gossip queue. */
module Replacement {
  import opened Base
  import opened GossipQueue
  import opened QueueAccounts
  import opened QueueBounds

  /**
   * A named broadcast replaces the one of its name; a unique one replaces nothing; any other replaces the
   * plain ones it invalidates. Unique ones are replaced by nothing.
   */
  predicate Replaces(b: Broadcast, o: Broadcast, invalidates: Relation) {
    if b.kind.Named? && b.kind.name != "" then o.kind == Named(b.kind.name)
    else !b.kind.Unique? && o.kind.Plain? && invalidates(b, o)
  }

  // ------------------------------------------------------------------- one submission

  /** Under right accounts the victims are exactly the queued items that are replaced. */
  lemma VictimsAreReplaced(q: Queue, b: Broadcast, invalidates: Relation, y: Item)
    requires TreeOk(q.tree, q.names)
    ensures y in Victims(q, b, invalidates) <==> y in q.tree && Replaces(b, y.b, invalidates)
  {
    InvalidatedAreQueued(q.tree, b, invalidates);
    assert y in q.tree <==> y in Elements(q.tree);
  }

  /** The item a submission puts in: unsent, with the next id, or 1 after the largest. */
  predicate IsNew(q: Queue, b: Broadcast, x: Item) {
    && x.b == b && x.transmits == 0 && x.tag == q.submitted && x.msgLen == |b.message|
    && x.id == if q.idGen == MAX_INT64 then 1 else q.idGen + 1
  }

  lemma EnqueuedElements(q: Queue, b: Broadcast, invalidates: Relation, limit: int)
    requires Accounts(q, limit) && !SubmitClash(q, b, invalidates)
    ensures var r := Enqueue(q, b, invalidates);
      && Accounts(r, limit) && r.submitted == q.submitted + 1
      && Elements(r.tree) == Elements(q.tree) - Elements(Victims(q, b, invalidates)) + {NewItem(q, b)}
  {
    var x, xs, c := NewItem(q, b), Elements(Victims(q, b, invalidates)), Cleared(q, b, invalidates);
    NewItemIsFresh(q, b, invalidates, limit);
    ClearedIs(q, b, invalidates);
    ClashIsTwin(q, b, invalidates, Elements(c.tree));
    AddedTwinless(q, xs, c, x, limit);
  }

  /**
   * What is queued afterwards: exactly what was and is not replaced, and one new item with the message,
   * not yet sent. What is not replaced is left as it is.
   */
  lemma SubmissionReplaces(q: Queue, b: Broadcast, invalidates: Relation, limit: int)
    requires Accounts(q, limit) && !SubmitClash(q, b, invalidates)
    ensures var r := Enqueue(q, b, invalidates);
      && (forall y :: y in q.tree ==> (y in r.tree <==> !Replaces(b, y.b, invalidates)))
      && (exists x :: x in r.tree && x !in q.tree && IsNew(q, b, x))
      && (forall x :: x in r.tree && x !in q.tree ==> IsNew(q, b, x))
      && (forall x, z :: x in r.tree && z in r.tree && x !in q.tree && z !in q.tree ==> x == z)
  {
    var r, n := Enqueue(q, b, invalidates), NewItem(q, b);
    EnqueuedElements(q, b, invalidates, limit);
    assert forall y :: y in q.tree ==> CountOk(y, q.handed, q.submitted, limit) by {
      assert forall y :: y in q.tree ==> y in Elements(q.tree);
    }
    assert forall y :: y in r.tree <==> y in Elements(r.tree);
    forall y | y in q.tree ensures y in r.tree <==> !Replaces(b, y.b, invalidates) {
      VictimsAreReplaced(q, b, invalidates, y);
      assert y.tag != n.tag;
    }
    assert n in r.tree && n !in q.tree;
  }

  /** How often a tag is queued. */
  lemma QueuedOnce(tree: seq<Item>, names: map<string, Item>, t: nat)
    requires TreeOk(tree, names)
    ensures Tags(tree)[t] == if exists x :: x in tree && x.tag == t then 1 else 0
  {
    forall x, y | x in tree && y in tree && x.tag == y.tag ensures x == y {
      assert x in Elements(tree) && y in Elements(tree);
    }
    TagsOnce(tree, t);
  }

  /** Exactly what is replaced is told that it is finished. */
  lemma ReplacedAreFinished(q: Queue, b: Broadcast, invalidates: Relation, limit: int, t: nat)
    requires Accounts(q, limit) && !SubmitClash(q, b, invalidates)
    ensures Enqueue(q, b, invalidates).finished[t] == q.finished[t]
      + if exists y :: y in q.tree && Replaces(b, y.b, invalidates) && y.tag == t then 1 else 0
  {
    var r := Enqueue(q, b, invalidates);
    EnqueuedElements(q, b, invalidates, limit);
    SubmissionReplaces(q, b, invalidates, limit);
    QueuedOnce(q.tree, q.names, t);
    QueuedOnce(r.tree, r.names, t);
    UpToCounts(q.submitted, t);
    UpToCounts(r.submitted, t);
    assert (Tags(q.tree) + q.finished)[t] == UpTo(q.submitted)[t];
    assert (Tags(r.tree) + r.finished)[t] == UpTo(r.submitted)[t];
    TagStays(q, b, invalidates, r, limit, t);
  }

  lemma TagStays(q: Queue, b: Broadcast, invalidates: Relation, r: Queue, limit: int, t: nat)
    requires Accounts(q, limit) && !SubmitClash(q, b, invalidates) && r == Enqueue(q, b, invalidates)
    ensures (exists x :: x in r.tree && x.tag == t) <==>
      t == q.submitted || exists y :: y in q.tree && y.tag == t && !Replaces(b, y.b, invalidates)
  {
    SubmissionReplaces(q, b, invalidates, limit);
  }

  // ------------------------------------------------------------------------ every run

  /** An item of the same submission was held before. */
  ghost predicate Held(items: set<Item>, z: Item) {
    exists y :: y in items && y.tag == z.tag && y.b == z.b
  }

  lemma {:induction false} DiscardShrinks(q: Queue, xs: seq<Item>)
    requires Ordered(q)
    ensures Elements(Discard(q, xs).tree) <= Elements(q.tree) - Elements(xs)
    decreases |xs|
  {
    if xs != [] {
      MoveOver({}, xs);
      DeleteShrinks(q.tree, xs[0]);
      DeleteItemOrders(Finish(q, xs[0]), xs[0]);
      DiscardShrinks(DeleteItem(Finish(q, xs[0]), xs[0]), xs[1..]);
    }
  }

  /** Even where accounts are wrong, what is replaced is gone. */
  lemma EnqueueReplaces(q: Queue, b: Broadcast, invalidates: Relation, limit: int, z: Item)
    requires Sound(q, [], q.submitted, limit) && z in Enqueue(q, b, invalidates).tree
    ensures (z.tag == q.submitted && z.b == b) || (z in q.tree && !Replaces(b, z.b, invalidates))
  {
    var c, x := Cleared(q, b, invalidates), NewItem(q, b);
    DiscardOrders(Counted(q), Victims(q, b, invalidates));
    DiscardShrinks(Counted(q), Victims(q, b, invalidates));
    InsertSorts(c.tree, x);
    InvalidatedAreQueued(q.tree, b, invalidates);
    if z != x {
      assert z in Elements(c.tree);
      assert z in Elements(q.tree) && z !in Victims(q, b, invalidates);
      if z.name != "" {
        assert z.name in q.names && q.names[z.name] == z;
      }
    }
  }

  ghost predicate AllHeld(items: set<Item>, q: Queue, later: seq<Item>) {
    (forall z :: z in q.tree ==> Held(items, z)) && (forall z :: z in later ==> Held(items, z))
  }

  lemma TurnHolds(items: set<Item>, p: Pack, c: Budget)
    requires Ordered(p.q) && AllHeld(items, p.q, p.later) && 0 < Free(p, c)
    ensures AllHeld(items, Turn(p, c).q, Turn(p, c).later)
  {
    var s := Scan(p.q.tree, p.tier, Free(p, c));
    if s.Some? {
      var x := s.value;
      DeleteShrinks(p.q.tree, x);
      forall z | z in Delete(p.q.tree, x) ensures Held(items, z) {
        assert z in Elements(Delete(p.q.tree, x)) && z in Elements(p.q.tree);
      }
      assert Held(items, x);
      assert Held(items, Bumped(x));
    }
  }

  lemma {:induction false} DrainHolds(items: set<Item>, p: Pack, maxTier: nat, c: Budget)
    requires PackOrdered(p) && AllHeld(items, p.q, p.later)
    ensures AllHeld(items, Drain(p, maxTier, c).q, Drain(p, maxTier, c).later)
    decreases maxTier + 1 - p.tier, |p.q.tree|
  {
    if !Stopped(p, maxTier, c) {
      TurnHolds(items, p, c);
      var s := Scan(p.q.tree, p.tier, Free(p, c));
      if s.Some? {
        TakeOrders(p, s.value, c);
      }
      DrainHolds(items, Turn(p, c), maxTier, c);
    }
  }

  lemma AddAllHolds(items: set<Item>, q: Queue, later: seq<Item>)
    requires Sorted(q.tree) && AllHeld(items, q, later)
    ensures AllHeld(items, AddAll(q, later), [])
  {
    AddAllWithin(q, later);
    forall z | z in AddAll(q, later).tree ensures Held(items, z) {
      assert z in Elements(AddAll(q, later).tree);
    }
  }

  lemma GiveHolds(q: Queue, c: Budget)
    requires Ordered(q)
    ensures AllHeld(Elements(q.tree), GetBroadcasts(q, c), [])
  {
    assert forall z :: z in q.tree ==> z in Elements(q.tree);
    if q.tree != [] {
      var p, maxTier := Pack(q, q.tree[0].transmits, 0, [], []), q.tree[|q.tree| - 1].transmits;
      DrainHolds(Elements(q.tree), p, maxTier, c);
      DrainOrders(p, maxTier, c);
    }
    AddAllHolds(Elements(q.tree), Packed(q, c).q, Packed(q, c).later);
  }

  lemma {:induction false} PruneShrinks(q: Queue, n: int)
    requires Ordered(q)
    ensures Elements(Prune(q, n).tree) <= Elements(q.tree)
    decreases |q.tree|
  {
    if !(|q.tree| <= n || q.tree == []) {
      var x := q.tree[|q.tree| - 1];
      DeleteShrinks(q.tree, x);
      DeleteItemOrders(Finish(q, x), x);
      PruneShrinks(DeleteItem(Finish(q, x), x), n);
    }
  }

  /** Whatever is queued after a step was submitted in it, or was queued before and not replaced in it. */
  lemma StepHolds(q: Queue, op: Op, invalidates: Relation, transmits: int, z: Item)
    requires Sound(q, [], q.submitted, transmits) && z in Apply(q, op, invalidates, transmits).tree
    ensures (z.tag == q.submitted && op == Submit(z.b)) || Held(Elements(q.tree), z)
    ensures op.Submit? && z.tag < q.submitted ==> !Replaces(op.b, z.b, invalidates)
  {
    match op
    case Submit(b) => EnqueueReplaces(q, b, invalidates, transmits, z);
    case Give(overhead, limit) => GiveHolds(q, Budget(overhead, limit, transmits));
    case Cut(n) =>
      PruneShrinks(q, n);
      assert z in Elements(Prune(q, n).tree);
    case Wipe =>
  }

  /** z was submitted in step i. */
  ghost predicate SubmittedIn(ops: seq<Op>, invalidates: Relation, transmits: int, i: nat, z: Item) {
    i < |ops| && ops[i] == Submit(z.b) && Run(ops[..i], invalidates, transmits).submitted == z.tag
  }

  /** Over every run, clashes included: whatever is queued was submitted under its tag. */
  lemma {:induction false} QueuedWasSubmitted(ops: seq<Op>, invalidates: Relation, transmits: int, z: Item) returns (i: nat)
    requires z in Run(ops, invalidates, transmits).tree
    ensures SubmittedIn(ops, invalidates, transmits, i, z)
  {
    var n := |ops| - 1;
    var before := Run(ops[..n], invalidates, transmits);
    RunSound(ops[..n], invalidates, transmits);
    StepHolds(before, ops[n], invalidates, transmits, z);
    i := n;
    if !(z.tag == before.submitted && ops[n] == Submit(z.b)) {
      var y :| y in Elements(before.tree) && y.tag == z.tag && y.b == z.b;
      i := QueuedWasSubmitted(ops[..n], invalidates, transmits, y);
      assert ops[..n][..i] == ops[..i];
    }
  }

  lemma StepCounts(q: Queue, op: Op, invalidates: Relation, transmits: int)
    requires Sound(q, [], q.submitted, transmits)
    ensures q.submitted <= Apply(q, op, invalidates, transmits).submitted
  {
    match op
    case Submit(b) => EnqueueSound(q, b, invalidates, transmits);
    case Give(overhead, limit) => GiveCounts(q, Budget(overhead, limit, transmits));
    case Cut(m) => PruneSound(q, m, q.submitted, transmits);
    case Wipe =>
  }

  lemma GiveCounts(q: Queue, c: Budget)
    requires Sound(q, [], q.submitted, c.transmits)
    ensures GetBroadcasts(q, c).submitted == q.submitted
  {
    if q.tree != [] {
      DrainSound(Pack(q, q.tree[0].transmits, 0, [], []), q.tree[|q.tree| - 1].transmits, c, q.submitted);
    }
    AddAllSound(Packed(q, c).q, Packed(q, c).later, q.submitted, c.transmits);
  }

  /** The queue after the first j steps of a run. */
  ghost function After(ops: seq<Op>, invalidates: Relation, transmits: int, j: nat): Queue
    requires j <= |ops|
  {
    Run(ops[..j], invalidates, transmits)
  }

  lemma NextState(ops: seq<Op>, invalidates: Relation, transmits: int, j: nat)
    requires j < |ops|
    ensures After(ops, invalidates, transmits, j + 1) == Apply(After(ops, invalidates, transmits, j), ops[j], invalidates, transmits)
    ensures var q := After(ops, invalidates, transmits, j); Sound(q, [], q.submitted, transmits)
  {
    RunNext(ops, j, invalidates, transmits);
    RunSound(ops[..j], invalidates, transmits);
  }

  lemma {:induction false} SubmittedGrows(ops: seq<Op>, invalidates: Relation, transmits: int, i: nat, j: nat)
    requires i <= j <= |ops|
    ensures After(ops, invalidates, transmits, i).submitted <= After(ops, invalidates, transmits, j).submitted
  {
    if i < j {
      SubmittedGrows(ops, invalidates, transmits, i, j - 1);
      NextState(ops, invalidates, transmits, j - 1);
      StepCounts(After(ops, invalidates, transmits, j - 1), ops[j - 1], invalidates, transmits);
    }
  }

  /** Of what was submitted before the step, what is held after it was held before it and not replaced in it. */
  ghost predicate Keeps(before: set<Item>, submitted: nat, op: Op, invalidates: Relation, after: set<Item>) {
    forall z :: z in after && z.tag < submitted ==>
      Held(before, z) && (op.Submit? ==> !Replaces(op.b, z.b, invalidates))
  }

  lemma {:induction false} NeverOutdated(held: seq<set<Item>>, counts: seq<nat>, ops: seq<Op>, invalidates: Relation,
                                         i: nat, j: nat, z: Item)
    requires |held| == |counts| == |ops| + 1 && i < j <= |ops| && ops[i].Submit?
    requires forall t :: i <= t < j ==> counts[i] <= counts[t] && Keeps(held[t], counts[t], ops[t], invalidates, held[t + 1])
    requires z in held[j] && z.tag < counts[i]
    ensures !Replaces(ops[i].b, z.b, invalidates)
    decreases j
  {
    assert Keeps(held[j - 1], counts[j - 1], ops[j - 1], invalidates, held[j - 1 + 1]);
    if i < j - 1 {
      assert Held(held[j - 1], z);
      var y :| y in held[j - 1] && y.tag == z.tag && y.b == z.b;
      NeverOutdated(held, counts, ops, invalidates, i, j - 1, y);
    }
  }

  lemma StepKeeps(ops: seq<Op>, invalidates: Relation, transmits: int, t: nat)
    requires t < |ops|
    ensures var q, r := After(ops, invalidates, transmits, t), After(ops, invalidates, transmits, t + 1);
      Keeps(Elements(q.tree), q.submitted, ops[t], invalidates, Elements(r.tree))
  {
    NextState(ops, invalidates, transmits, t);
    var q, r := After(ops, invalidates, transmits, t), After(ops, invalidates, transmits, t + 1);
    forall z | z in Elements(r.tree) && z.tag < q.submitted
      ensures Held(Elements(q.tree), z) && (ops[t].Submit? ==> !Replaces(ops[t].b, z.b, invalidates))
    {
      StepHolds(q, ops[t], invalidates, transmits, z);
    }
  }

  /** Over every run, clashes included: what is queued was replaced by nothing submitted after it. */
  lemma NothingOutdated(ops: seq<Op>, invalidates: Relation, transmits: int, i: nat, z: Item)
    requires i < |ops| && ops[i].Submit? && z in After(ops, invalidates, transmits, |ops|).tree
    requires z.tag < After(ops, invalidates, transmits, i).submitted
    ensures !Replaces(ops[i].b, z.b, invalidates)
  {
    var held := seq(|ops| + 1, t requires 0 <= t <= |ops| => Elements(After(ops, invalidates, transmits, t).tree));
    var counts := seq(|ops| + 1, t requires 0 <= t <= |ops| => After(ops, invalidates, transmits, t).submitted);
    forall t | i <= t < |ops|
      ensures counts[i] <= counts[t] && Keeps(held[t], counts[t], ops[t], invalidates, held[t + 1])
    {
      SubmittedGrows(ops, invalidates, transmits, i, t);
      StepKeeps(ops, invalidates, transmits, t);
    }
    NeverOutdated(held, counts, ops, invalidates, i, |ops|, z);
  }

  /**
   * Over every run, clashes included: of two queued broadcasts, the later does not replace the earlier. In
   * particular no two have the same name, and no plain one is invalidated by a later plain one.
   */
  lemma LaterReplacesNothing(ops: seq<Op>, invalidates: Relation, transmits: int, x: Item, y: Item)
    requires x in Run(ops, invalidates, transmits).tree && y in Run(ops, invalidates, transmits).tree && y.tag < x.tag
    ensures !Replaces(x.b, y.b, invalidates)
    ensures !(x.b.kind.Named? && x.b.kind.name != "" && x.b.kind == y.b.kind)
    ensures x.b.kind.Plain? && y.b.kind.Plain? ==> !invalidates(x.b, y.b)
  {
    var i := QueuedWasSubmitted(ops, invalidates, transmits, x);
    assert ops[..|ops|] == ops;
    NothingOutdated(ops, invalidates, transmits, i, y);
  }

  lemma QueuedAreApart(ops: seq<Op>, invalidates: Relation, transmits: int, x: Item, y: Item)
    requires x in Run(ops, invalidates, transmits).tree && y in Run(ops, invalidates, transmits).tree && x != y
    ensures x.tag != y.tag
  {
    RunSound(ops, invalidates, transmits);
    var q := Run(ops, invalidates, transmits);
    assert x in Live(Elements(q.tree), q.names) && y in Live(Elements(q.tree), q.names);
  }
}
