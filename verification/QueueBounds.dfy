/**
 * What the gossip queue keeps in every run, clashes included: no submission is handed out beyond the
 * limit, queued twice, finished twice, or finished while it is queued. Only that it is one of the two,
 * and that the index is exact, needs a run without clashes.
 */
module QueueBounds {
  import opened Base
  import opened GossipQueue
  import opened QueueAccounts

  // ------------------------------------------------------------------------ the invariant

  /** Items in the tree, and those the index may still hold although the tree has lost them. */
  ghost function Live(held: set<Item>, names: map<string, Item>): set<Item> {
    held + names.Values
  }

  /** Whatever is named and in the tree is indexed; the index holds items under their own names. */
  ghost predicate Keyed(held: set<Item>, names: map<string, Item>) {
    && (forall n :: n in names ==> n != "" && names[n].name == n)
    && (forall x :: x in held && x.name != "" ==> x.name in names && names[x.name] == x)
  }

  /** One item for a submission, none of them finished; and no submission finished twice. */
  ghost predicate Books(live: set<Item>, finished: multiset<nat>, n: nat) {
    && (forall x, y :: x in live && y in live && x.tag == y.tag ==> x == y)
    && (forall x :: x in live ==> x.tag < n && finished[x.tag] == 0)
    && (forall t :: finished[t] <= if t < n then 1 else 0)
  }

  /** The items to go back in find their names free. */
  ghost predicate Waiting(names: map<string, Item>, later: seq<Item>) {
    && (forall i :: 0 <= i < |later| ==> ItemOk(later[i]) && later[i].name !in names)
    && (forall i, j :: 0 <= i < j < |later| ==> Apart(later[i], later[j]))
  }

  /** n submissions have been made; the items later are still to go back in. */
  ghost predicate Sound(q: Queue, later: seq<Item>, n: nat, limit: int) {
    && Ordered(q) && Keyed(Elements(q.tree), q.names) && Waiting(q.names, later) && Elements(q.tree) !! Elements(later)
    && Books(Live(Elements(q.tree), q.names) + Elements(later), q.finished, n)
    && CountsOk(Elements(q.tree) + Elements(later), q.handed, n, limit) && HandedOk(q.handed, n, limit)
  }

  // ------------------------------------------------------------------------- bookkeeping

  lemma BooksShrink(live: set<Item>, live2: set<Item>, finished: multiset<nat>, n: nat)
    requires Books(live, finished, n) && live2 <= live
    ensures Books(live2, finished, n)
  {
  }

  lemma BooksFinish(live: set<Item>, x: Item, live2: set<Item>, finished: multiset<nat>, n: nat)
    requires Books(live, finished, n) && x in live && live2 <= live - {x}
    ensures Books(live2, finished + multiset{x.tag}, n)
  {
  }

  lemma BooksBump(live: set<Item>, x: Item, live2: set<Item>, finished: multiset<nat>, n: nat)
    requires Books(live, finished, n) && x in live && live2 <= live - {x} + {Bumped(x)}
    ensures Books(live2, finished, n)
  {
  }

  lemma BooksSubmit(live: set<Item>, x: Item, live2: set<Item>, finished: multiset<nat>, n: nat)
    requires Books(live, finished, n) && x.tag == n && live2 <= live + {x}
    ensures Books(live2, finished, n + 1)
  {
  }

  lemma DropLive(held: set<Item>, names: map<string, Item>, x: Item, held2: set<Item>)
    requires Keyed(held, names) && x in Live(held, names) && held2 <= held - {x}
    ensures Keyed(held2, Unindexed(names, x))
    ensures Live(held2, Unindexed(names, x)) <= Live(held, names) - {x}
  {
  }

  lemma PutLive(held: set<Item>, names: map<string, Item>, x: Item, held2: set<Item>)
    requires Keyed(held, names) && x.name !in names && held2 <= held + {x}
    ensures Keyed(held2, Indexed(names, x))
    ensures Live(held2, Indexed(names, x)) <= Live(held, names) + {x}
  {
  }

  /** Deleting by equivalence takes out x, or something else if the tree has lost x; nothing comes in. */
  lemma DeleteShrinks(tree: seq<Item>, x: Item)
    requires Sorted(tree)
    ensures Elements(Delete(tree, x)) <= Elements(tree) - {x}
    ensures x in tree ==> Elements(Delete(tree, x)) == Elements(tree) - {x}
  {
    DeleteKeepsOrder(tree, x);
    if x in tree {
      DeleteOrders(tree, x);
    }
  }

  // -------------------------------------------------------------------- finishing items

  lemma DiscardOneSound(q: Queue, x: Item, n: nat, limit: int)
    requires Sound(q, [], n, limit) && x in Live(Elements(q.tree), q.names)
    ensures var r := DeleteItem(Finish(q, x), x);
      && Sound(r, [], n, limit) && r.names == Unindexed(q.names, x)
      && (x in q.tree ==> Elements(r.tree) == Elements(q.tree) - {x})
  {
    var r := DeleteItem(Finish(q, x), x);
    DeleteItemOrders(Finish(q, x), x);
    DeleteShrinks(q.tree, x);
    DropLive(Elements(q.tree), q.names, x, Elements(r.tree));
    assert Elements<Item>([]) == {};
    BooksFinish(Live(Elements(q.tree), q.names), x, Live(Elements(r.tree), r.names), q.finished, n);
  }

  lemma {:induction false} DiscardAllSound(q: Queue, xs: seq<Item>, n: nat, limit: int)
    requires Sound(q, [], n, limit) && NoDup(xs) && Elements(xs) <= Elements(q.tree)
    ensures Sound(Discard(q, xs), [], n, limit)
    decreases |xs|
  {
    if xs != [] {
      MoveOver({}, xs);
      assert xs[0] !in xs[1..] && xs[0] in Elements(xs);
      DiscardOneSound(q, xs[0], n, limit);
      DiscardAllSound(DeleteItem(Finish(q, xs[0]), xs[0]), xs[1..], n, limit);
    }
  }

  lemma {:induction false} PruneSound(q: Queue, m: int, n: nat, limit: int)
    requires Sound(q, [], n, limit)
    ensures Sound(Prune(q, m), [], n, limit) && Prune(q, m).submitted == q.submitted
    decreases |q.tree|
  {
    if !(|q.tree| <= m || q.tree == []) {
      var x := q.tree[|q.tree| - 1];
      DiscardOneSound(q, x, n, limit);
      PruneSound(DeleteItem(Finish(q, x), x), m, n, limit);
    }
  }

  // ------------------------------------------------------------------------- submitting

  lemma CountedSound(q: Queue, n: nat, limit: int)
    requires Sound(q, [], n, limit)
    ensures Sound(Counted(q), [], n, limit)
  {
  }

  lemma NamesakeSound(q: Queue, key: string, n: nat, limit: int)
    requires Sound(q, [], n, limit) && key in q.names
    ensures var r := Discard(q, [q.names[key]]); Sound(r, [], n, limit) && key !in r.names
  {
    var x := q.names[key];
    DiscardOneSound(q, x, n, limit);
    assert [x][1..] == [];
    assert Discard(q, [x]) == DeleteItem(Finish(q, x), x);
  }

  lemma InvalidatedSound(q: Queue, b: Broadcast, invalidates: Relation, n: nat, limit: int)
    requires Sound(q, [], n, limit)
    ensures Sound(Discard(q, Invalidated(q.tree, b, invalidates)), [], n, limit)
  {
    InvalidatedAreQueued(q.tree, b, invalidates);
    DiscardAllSound(q, Invalidated(q.tree, b, invalidates), n, limit);
  }

  /** The victims are in the tree, or the one indexed under the new name. */
  lemma ClearedSound(q: Queue, b: Broadcast, invalidates: Relation, n: nat, limit: int)
    requires Sound(q, [], n, limit)
    ensures Sound(Cleared(q, b, invalidates), [], n, limit) && b.Key() !in Cleared(q, b, invalidates).names
  {
    CountedSound(q, n, limit);
    if b.Key() in q.names {
      NamesakeSound(Counted(q), b.Key(), n, limit);
    } else if b.Key() == "" && !b.kind.Unique? {
      InvalidatedSound(Counted(q), b, invalidates, n, limit);
    }
  }

  lemma {:induction false} DiscardKeepsCounts(q: Queue, xs: seq<Item>)
    ensures Discard(q, xs).submitted == q.submitted
    decreases |xs|
  {
    if xs != [] {
      DiscardKeepsCounts(DeleteItem(Finish(q, xs[0]), xs[0]), xs[1..]);
    }
  }

  lemma AddNewSound(c: Queue, x: Item, n: nat, limit: int)
    requires Sound(c, [], n, limit) && ItemOk(x) && x.tag == n && x.transmits == 0 && x.name !in c.names
    ensures Sound(AddItem(c, x), [], n + 1, limit)
  {
    var r := AddItem(c, x);
    AddItemOrders(c, x);
    InsertSorts(c.tree, x);
    assert Elements<Item>([]) == {};
    assert Elements(r.tree) <= Elements(c.tree) + {x};
    PutLive(Elements(c.tree), c.names, x, Elements(r.tree));
    BooksSubmit(Live(Elements(c.tree), c.names), x, Live(Elements(r.tree), r.names), c.finished, n);
    CountsGrow(Elements(c.tree), {}, x, c.handed, n, limit);
  }

  lemma EnqueueSound(q: Queue, b: Broadcast, invalidates: Relation, limit: int)
    requires Sound(q, [], q.submitted, limit)
    ensures var r := Enqueue(q, b, invalidates); r.submitted == q.submitted + 1 && Sound(r, [], r.submitted, limit)
  {
    ClearedSound(q, b, invalidates, q.submitted, limit);
    DiscardKeepsCounts(Counted(q), Victims(q, b, invalidates));
    AddNewSound(Cleared(q, b, invalidates), NewItem(q, b), q.submitted, limit);
  }

  // ------------------------------------------------------------------------ handing out

  lemma WaitingGrows(names: map<string, Item>, later: seq<Item>, held: set<Item>, x: Item)
    requires Waiting(names, later) && Keyed(held, names) && x in held && ItemOk(x)
    requires forall y :: y in Elements(later) ==> y.tag != x.tag
    ensures Waiting(Unindexed(names, x), later) && Waiting(Unindexed(names, x), later + [Bumped(x)])
  {
    forall i | 0 <= i < |later| ensures Apart(later[i], Bumped(x)) {
      assert later[i] in Elements(later);
    }
  }

  lemma TagsElsewhere(held: set<Item>, names: map<string, Item>, later: seq<Item>, finished: multiset<nat>, n: nat, x: Item)
    requires Books(Live(held, names) + Elements(later), finished, n) && held !! Elements(later) && x in held
    ensures forall y :: y in Elements(later) ==> y.tag != x.tag
    ensures forall y :: y in held + Elements(later) && y.tag == x.tag ==> y == x
  {
  }

  /** What Take leaves of the queue, whichever way x goes. */
  ghost predicate GivenOut(q: Queue, x: Item, r: Queue) {
    && Ordered(r) && Elements(r.tree) == Elements(q.tree) - {x} && r.names == Unindexed(q.names, x)
    && r.handed == q.handed + multiset{x.tag} && r.submitted == q.submitted
  }

  lemma HandOutGives(q: Queue, x: Item)
    requires Ordered(q) && x in Elements(q.tree)
    ensures GivenOut(q, x, HandOut(q, x))
  {
    DeleteItemOrders(q.(handed := q.handed + multiset{x.tag}), x);
    DeleteShrinks(q.tree, x);
  }

  lemma GivenOutLive(q: Queue, later: seq<Item>, x: Item, r: Queue, n: nat, limit: int)
    requires Sound(q, later, n, limit) && x in Elements(q.tree) && GivenOut(q, x, r)
    ensures Keyed(Elements(r.tree), r.names)
    ensures Waiting(r.names, later) && Waiting(r.names, later + [Bumped(x)])
    ensures Live(Elements(r.tree), r.names) + Elements(later) <= Live(Elements(q.tree), q.names) + Elements(later) - {x}
  {
    DropLive(Elements(q.tree), q.names, x, Elements(r.tree));
    TagsElsewhere(Elements(q.tree), q.names, later, q.finished, n, x);
    WaitingGrows(q.names, later, Elements(q.tree), x);
  }

  lemma GivenOutCounts(q: Queue, later: seq<Item>, x: Item, r: Queue, n: nat, limit: int)
    requires Sound(q, later, n, limit) && x in Elements(q.tree) && GivenOut(q, x, r)
    ensures HandedOk(r.handed, n, limit) && CountsOk(Elements(r.tree) + Elements(later), r.handed, n, limit)
    ensures x.transmits + 1 < limit ==> CountOk(Bumped(x), r.handed, n, limit)
  {
    var all := Elements(q.tree) + Elements(later);
    TagsElsewhere(Elements(q.tree), q.names, later, q.finished, n, x);
    CountsAfterTake(all, x, q.handed, n, limit);
    assert Elements(r.tree) + Elements(later) == all - {x};
  }

  lemma FinishedSound(q: Queue, later: seq<Item>, x: Item, r: Queue, n: nat, limit: int)
    requires Sound(q, later, n, limit) && x in Elements(q.tree) && GivenOut(q, x, r)
    requires r.finished == q.finished + multiset{x.tag}
    ensures Sound(r, later, n, limit)
  {
    GivenOutLive(q, later, x, r, n, limit);
    GivenOutCounts(q, later, x, r, n, limit);
    BooksFinish(Live(Elements(q.tree), q.names) + Elements(later), x,
                Live(Elements(r.tree), r.names) + Elements(later), q.finished, n);
  }

  lemma BumpedElsewhere(live: set<Item>, held: set<Item>, x: Item, finished: multiset<nat>, n: nat)
    requires Books(live, finished, n) && held <= live && x in held
    ensures Bumped(x) !in held
  {
  }

  lemma BumpedSound(q: Queue, later: seq<Item>, x: Item, r: Queue, later2: seq<Item>, n: nat, limit: int)
    requires Sound(q, later, n, limit) && x in Elements(q.tree) && GivenOut(q, x, r)
    requires r.finished == q.finished && x.transmits + 1 < limit && later2 == later + [Bumped(x)]
    ensures Sound(r, later2, n, limit)
  {
    var live := Live(Elements(q.tree), q.names) + Elements(later);
    GivenOutLive(q, later, x, r, n, limit);
    GivenOutCounts(q, later, x, r, n, limit);
    ElementsAppend(later, [Bumped(x)]);
    assert Elements([Bumped(x)]) == {Bumped(x)};
    BumpedElsewhere(live, Elements(q.tree), x, q.finished, n);
    BooksBump(live, x, Live(Elements(r.tree), r.names) + Elements(later2), q.finished, n);
  }

  lemma TurnSound(p: Pack, c: Budget, n: nat)
    requires Sound(p.q, p.later, n, c.transmits) && 0 < Free(p, c)
    ensures var r := Turn(p, c); r.q.submitted == p.q.submitted && Sound(r.q, r.later, n, c.transmits)
  {
    match Scan(p.q.tree, p.tier, Free(p, c))
    case None =>
    case Some(x) =>
      HandOutGives(p.q, x);
      var r := Take(p, x, c);
      if x.transmits + 1 >= c.transmits {
        FinishedSound(p.q, p.later, x, r.q, n, c.transmits);
      } else {
        BumpedSound(p.q, p.later, x, r.q, r.later, n, c.transmits);
      }
  }

  lemma {:induction false} DrainSound(p: Pack, maxTier: nat, c: Budget, n: nat)
    requires Sound(p.q, p.later, n, c.transmits)
    ensures var r := Drain(p, maxTier, c); r.q.submitted == p.q.submitted && Sound(r.q, r.later, n, c.transmits)
    decreases maxTier + 1 - p.tier, |p.q.tree|
  {
    if !Stopped(p, maxTier, c) {
      TurnSound(p, c, n);
      DrainSound(Turn(p, c), maxTier, c, n);
    }
  }

  lemma PutBackSound(q: Queue, later: seq<Item>, r: Queue, n: nat, limit: int)
    requires Sound(q, later, n, limit) && later != [] && r == AddItem(q, later[0])
    ensures Sound(r, later[1..], n, limit)
  {
    var x := later[0];
    AddItemOrders(q, x);
    InsertSorts(q.tree, x);
    assert Elements(r.tree) <= Elements(q.tree) + {x};
    MoveOver(Elements(q.tree), later);
    PutLive(Elements(q.tree), q.names, x, Elements(r.tree));
    BooksShrink(Live(Elements(q.tree), q.names) + Elements(later), Live(Elements(r.tree), r.names) + Elements(later[1..]),
                q.finished, n);
    forall y | y in Elements(later[1..]) ensures y != x {
      var i :| 0 <= i < |later| - 1 && later[1..][i] == y;
      assert Apart(later[0], later[i + 1]);
    }
  }

  lemma {:induction false} AddAllSound(q: Queue, later: seq<Item>, n: nat, limit: int)
    requires Sound(q, later, n, limit)
    ensures Sound(AddAll(q, later), [], n, limit) && AddAll(q, later).submitted == q.submitted
    decreases |later|
  {
    if later != [] {
      PutBackSound(q, later, AddItem(q, later[0]), n, limit);
      AddAllSound(AddItem(q, later[0]), later[1..], n, limit);
    }
  }

  lemma GetBroadcastsSound(q: Queue, c: Budget)
    requires Sound(q, [], q.submitted, c.transmits)
    ensures var r := GetBroadcasts(q, c); Sound(r, [], r.submitted, c.transmits)
  {
    if q.tree != [] {
      DrainSound(Pack(q, q.tree[0].transmits, 0, [], []), q.tree[|q.tree| - 1].transmits, c, q.submitted);
    }
    AddAllSound(Packed(q, c).q, Packed(q, c).later, q.submitted, c.transmits);
  }

  // -------------------------------------------------------------------------- every run

  /** Items of different submissions are counted once each. */
  lemma {:induction false} TagsOnce(tree: seq<Item>, t: nat)
    requires Sorted(tree) && forall x, y :: x in tree && y in tree && x.tag == y.tag ==> x == y
    ensures Tags(tree)[t] == if exists x :: x in tree && x.tag == t then 1 else 0
  {
    if tree != [] {
      var rest := tree[1..];
      assert tree == [tree[0]] + rest;
      TagsOnce(rest, t);
      assert forall y :: y in rest ==> Less(tree[0], y);
      assert tree[0] !in rest;
    }
  }

  lemma ResetSound(q: Queue, limit: int)
    requires Sound(q, [], q.submitted, limit)
    ensures Sound(Reset(q), [], q.submitted, limit)
  {
    var r := Reset(q);
    assert Elements<Item>([]) == {} && Live({}, map[]) == {};
    forall t: nat ensures r.finished[t] <= if t < q.submitted then 1 else 0 {
      TreeCounts(q, t, limit);
    }
  }

  /** A submission is queued at most once, and not at all once it is finished. */
  lemma TreeCounts(q: Queue, t: nat, limit: int)
    requires Sound(q, [], q.submitted, limit)
    ensures Tags(q.tree)[t] + q.finished[t] <= if t < q.submitted then 1 else 0
  {
    forall x | x in q.tree ensures x in Live(Elements(q.tree), q.names) + Elements([]) {
      assert x in Elements(q.tree);
    }
    TagsOnce(q.tree, t);
  }

  lemma ApplySound(q: Queue, op: Op, invalidates: Relation, transmits: int)
    requires Sound(q, [], q.submitted, transmits)
    ensures var r := Apply(q, op, invalidates, transmits); Sound(r, [], r.submitted, transmits)
  {
    match op
    case Submit(b) => EnqueueSound(q, b, invalidates, transmits);
    case Give(overhead, limit) => GetBroadcastsSound(q, Budget(overhead, limit, transmits));
    case Cut(m) => PruneSound(q, m, q.submitted, transmits);
    case Wipe => ResetSound(q, transmits);
  }

  lemma {:induction false} RunSound(ops: seq<Op>, invalidates: Relation, transmits: int)
    ensures var q := Run(ops, invalidates, transmits); Sound(q, [], q.submitted, transmits)
  {
    if ops == [] {
      assert Elements<Item>([]) == {} && Live({}, map[]) == {};
    } else {
      RunSound(ops[..|ops| - 1], invalidates, transmits);
      ApplySound(Run(ops[..|ops| - 1], invalidates, transmits), ops[|ops| - 1], invalidates, transmits);
    }
  }

  /** The index holds exactly the named items of the tree. */
  ghost predicate IndexExact(q: Queue) {
    && (forall n :: n in q.names ==> n != "" && q.names[n] in q.tree && q.names[n].name == n)
    && (forall x :: x in q.tree && x.name != "" ==> x.name in q.names && q.names[x.name] == x)
  }

  lemma RightAccounts(ops: seq<Op>, invalidates: Relation, transmits: int, tag: nat)
    requires NeverClashes(ops, invalidates, transmits)
    ensures var q := Run(ops, invalidates, transmits);
      IndexExact(q) && Tags(q.tree)[tag] + q.finished[tag] == if tag < q.submitted then 1 else 0
  {
    var q := Run(ops, invalidates, transmits);
    PrefixAccounts(ops, |ops|, invalidates, transmits);
    assert ops[..|ops|] == ops;
    UpToCounts(q.submitted, tag);
    assert (Tags(q.tree) + q.finished)[tag] == UpTo(q.submitted)[tag];
    forall x | x in q.tree && x.name != "" ensures x.name in q.names && q.names[x.name] == x {
      assert x in Elements(q.tree);
    }
  }

  /**
   * In every run, whatever clashes, each submission was handed out at most max(1, transmit limit) times,
   * is queued at most once and was finished at most once, and is not both. In a run without clashes it is
   * one of the two, and the index is exact.
   */
  lemma RunAccounts(ops: seq<Op>, invalidates: Relation, transmits: int, tag: nat)
    ensures var q := Run(ops, invalidates, transmits);
      && q.handed[tag] <= (if tag < q.submitted then Cap(transmits) else 0)
      && Tags(q.tree)[tag] + q.finished[tag] <= (if tag < q.submitted then 1 else 0)
      && (NeverClashes(ops, invalidates, transmits) ==>
           IndexExact(q) && Tags(q.tree)[tag] + q.finished[tag] == if tag < q.submitted then 1 else 0)
  {
    RunSound(ops, invalidates, transmits);
    TreeCounts(Run(ops, invalidates, transmits), tag, transmits);
    if NeverClashes(ops, invalidates, transmits) {
      RightAccounts(ops, invalidates, transmits, tag);
    }
  }
}
