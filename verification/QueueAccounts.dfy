/**
 * The accounts of the gossip queue over whole runs: what is indexed, what was finished and
 * how often each submission was handed out, and exactly when they go wrong.
 */
module QueueAccounts {
  import opened Base
  import opened GossipQueue

  // ------------------------------------------------------------------- the accounts

  /** Submissions are unique among the items held, and the index holds exactly the named ones. */
  ghost predicate HeldOk(held: set<Item>, names: map<string, Item>) {
    && (forall x :: x in held ==> ItemOk(x))
    && (forall x, y :: x in held && y in held && x.tag == y.tag ==> x == y)
    && (forall x :: x in held && x.name != "" ==> x.name in names && names[x.name] == x)
    && (forall n :: n in names ==> n != "" && names[n] in held && names[n].name == n)
  }

  ghost predicate TreeOk(tree: seq<Item>, names: map<string, Item>) {
    Sorted(tree) && HeldOk(Elements(tree), names)
  }

  /** The bag of the numbers below n. */
  ghost function UpTo(n: nat): multiset<nat> {
    if n == 0 then multiset{} else UpTo(n - 1) + multiset{n - 1}
  }

  lemma {:induction false} UpToCounts(n: nat, t: nat)
    ensures UpTo(n)[t] == if t < n then 1 else 0
  {
    if n > 0 {
      UpToCounts(n - 1, t);
    }
  }

  /** The most often a broadcast may be handed out. */
  function Cap(limit: int): nat {
    if limit < 1 then 1 else limit
  }

  /** x was handed out as often as its transmit count says, and may be once more. */
  ghost predicate CountOk(x: Item, handed: multiset<nat>, submitted: nat, limit: int) {
    handed[x.tag] == x.transmits < Cap(limit) && x.tag < submitted
  }

  ghost predicate CountsOk(held: set<Item>, handed: multiset<nat>, submitted: nat, limit: int) {
    forall x :: x in held ==> CountOk(x, handed, submitted, limit)
  }

  ghost predicate HandedOk(handed: multiset<nat>, submitted: nat, limit: int) {
    forall t :: handed[t] <= (if t < submitted then Cap(limit) else 0)
  }

  /**
   * The accounts: index and tree coincide, every submission is queued or finished but never
   * both, and none was handed out beyond the limit. Nothing is said of ids but their range.
   */
  ghost predicate Accounts(q: Queue, limit: int) {
    && TreeOk(q.tree, q.names) && q.idGen <= MAX_INT64
    && Tags(q.tree) + q.finished == UpTo(q.submitted)
    && CountsOk(Elements(q.tree), q.handed, q.submitted, limit)
    && HandedOk(q.handed, q.submitted, limit)
  }

  function Unindexed(names: map<string, Item>, x: Item): map<string, Item> {
    if x.name != "" then names - {x.name} else names
  }

  function Indexed(names: map<string, Item>, x: Item): map<string, Item> {
    if x.name != "" then names[x.name := x] else names
  }

  lemma RemoveKeepsHeld(held: set<Item>, names: map<string, Item>, x: Item)
    requires HeldOk(held, names) && x in held
    ensures HeldOk(held - {x}, Unindexed(names, x))
  {
  }

  lemma DeleteKeepsTree(tree: seq<Item>, names: map<string, Item>, x: Item)
    requires TreeOk(tree, names) && x in tree
    ensures TreeOk(Delete(tree, x), Unindexed(names, x))
    ensures Elements(Delete(tree, x)) == Elements(tree) - {x}
    ensures Tags(tree) == Tags(Delete(tree, x)) + multiset{x.tag}
  {
    DeleteSorts(tree, x);
    RemoveKeepsHeld(Elements(tree), names, x);
  }

  /** x is no submission that is held, and its name is free. */
  ghost predicate NewTo(held: set<Item>, names: map<string, Item>, x: Item) {
    x.name !in names && forall y :: y in held ==> y.tag != x.tag
  }

  /** The tree would take x for one of these. */
  ghost predicate Twin(held: set<Item>, x: Item) {
    exists y :: y in held && Equivalent(y, x)
  }

  lemma PutKeepsHeld(held: set<Item>, names: map<string, Item>, x: Item)
    requires HeldOk(held, names) && ItemOk(x) && NewTo(held, names, x)
    ensures HeldOk(held + {x}, Indexed(names, x))
  {
  }

  lemma InsertKeepsTree(tree: seq<Item>, names: map<string, Item>, x: Item)
    requires TreeOk(tree, names) && ItemOk(x) && NewTo(Elements(tree), names, x) && !Twin(Elements(tree), x)
    ensures TreeOk(Insert(tree, x), Indexed(names, x))
    ensures Elements(Insert(tree, x)) == Elements(tree) + {x}
    ensures Tags(Insert(tree, x)) == Tags(tree) + multiset{x.tag}
  {
    NoTwin(tree, x);
    InsertSorts(tree, x);
    InsertTags(tree, x);
    PutKeepsHeld(Elements(tree), names, x);
  }

  lemma NoTwin(tree: seq<Item>, x: Item)
    requires !Twin(Elements(tree), x)
    ensures forall y :: y in tree ==> !Equivalent(y, x)
  {
    assert forall y :: y in tree ==> y in Elements(tree);
  }

  // ------------------------------------------------------------- how accounts go wrong

  lemma {:induction false} TagsOfNone(s: seq<Item>, t: nat)
    requires forall x :: x in s ==> x.tag != t
    ensures Tags(s)[t] == 0
  {
    if s != [] {
      TagsOfNone(s[1..], t);
    }
  }

  lemma {:induction false} TagsOfSome(s: seq<Item>, x: Item)
    requires x in s
    ensures Tags(s)[x.tag] >= 1
  {
    if s[0] != x {
      TagsOfSome(s[1..], x);
    }
  }

  /** A submission that is neither queued nor finished is lost. */
  lemma LostMeansWrong(q: Queue, limit: int, t: nat)
    requires t < q.submitted && q.finished[t] == 0 && forall x :: x in q.tree ==> x.tag != t
    ensures !Accounts(q, limit)
  {
    TagsOfNone(q.tree, t);
    UpToCounts(q.submitted, t);
    assert (Tags(q.tree) + q.finished)[t] == 0;
  }

  /** What is queued is not finished. */
  lemma QueuedIsUnfinished(tree: seq<Item>, more: multiset<nat>, finished: multiset<nat>, n: nat, y: Item)
    requires Tags(tree) + more + finished == UpTo(n) && y in tree && y.tag < n
    ensures finished[y.tag] == 0
  {
    TagsOfSome(tree, y);
    UpToCounts(n, y.tag);
    assert (Tags(tree) + more + finished)[y.tag] == 1;
  }

  // -------------------------------------------------------------------- submitting

  lemma {:induction false} InvalidatedAreQueued(tree: seq<Item>, b: Broadcast, invalidates: Relation)
    requires Sorted(tree)
    ensures var v := Invalidated(tree, b, invalidates);
      && Sorted(v)
      && forall x :: x in v <==> x in tree && x.b.kind.Plain? && invalidates(b, x.b)
  {
    if tree != [] {
      InvalidatedAreQueued(tree[1..], b, invalidates);
      assert tree == [tree[0]] + tree[1..];
    }
  }

  lemma VictimsAreQueued(q: Queue, b: Broadcast, invalidates: Relation)
    requires TreeOk(q.tree, q.names)
    ensures NoDup(Victims(q, b, invalidates))
    ensures Elements(Victims(q, b, invalidates)) <= Elements(q.tree)
    ensures b.Key() in q.names ==> q.names[b.Key()] in Elements(Victims(q, b, invalidates))
  {
    InvalidatedAreQueued(q.tree, b, invalidates);
  }

  /** r is q with the items xs finished and gone. */
  ghost predicate Discarded(q: Queue, xs: set<Item>, r: Queue) {
    && TreeOk(r.tree, r.names)
    && Elements(r.tree) == Elements(q.tree) - xs
    && Tags(r.tree) + r.finished == Tags(q.tree) + q.finished
    && r.handed == q.handed && r.submitted == q.submitted
    && r.idGen == if xs != {} && r.tree == [] then 0 else q.idGen
  }

  lemma DiscardedThenMore(q: Queue, x: Item, mid: Queue, xs: set<Item>, r: Queue)
    requires Discarded(q, {x}, mid) && Discarded(mid, xs, r)
    ensures Discarded(q, {x} + xs, r)
  {
    ElementsEmpty(mid.tree);
    ElementsEmpty(r.tree);
  }

  lemma DiscardOne(q: Queue, x: Item)
    requires TreeOk(q.tree, q.names) && x in Elements(q.tree)
    ensures Discarded(q, {x}, DeleteItem(Finish(q, x), x))
  {
    DeleteKeepsTree(q.tree, q.names, x);
  }

  lemma {:induction false} DiscardAll(q: Queue, xs: seq<Item>)
    requires TreeOk(q.tree, q.names) && NoDup(xs) && Elements(xs) <= Elements(q.tree)
    ensures Discarded(q, Elements(xs), Discard(q, xs))
    decreases |xs|
  {
    ElementsEmpty(xs);
    if xs != [] {
      var x, rest := xs[0], xs[1..];
      MoveOver({}, xs);
      assert x !in rest && x in Elements(xs);
      DiscardOne(q, x);
      var mid := DeleteItem(Finish(q, x), x);
      DiscardAll(mid, rest);
      DiscardedThenMore(q, x, mid, Elements(rest), Discard(mid, rest));
    }
  }

  lemma MoveOver(held: set<Item>, later: seq<Item>)
    requires later != []
    ensures Elements(later) == {later[0]} + Elements(later[1..]) && later == [later[0]] + later[1..]
    ensures held + Elements(later) == held + {later[0]} + Elements(later[1..])
  {
    assert later == [later[0]] + later[1..];
    ElementsAppend([later[0]], later[1..]);
    assert Elements([later[0]]) == {later[0]};
  }

  /** The queue with the number of submissions and the generator moved on. */
  function Counted(q: Queue): Queue {
    q.(idGen := NextId(q.idGen), submitted := q.submitted + 1)
  }

  lemma ClearedIs(q: Queue, b: Broadcast, invalidates: Relation)
    requires TreeOk(q.tree, q.names)
    ensures Discarded(Counted(q), Elements(Victims(q, b, invalidates)), Cleared(q, b, invalidates))
  {
    VictimsAreQueued(q, b, invalidates);
    DiscardAll(Counted(q), Victims(q, b, invalidates));
  }

  /**
   * An item that survives the submission was never sent, is as long as the new one, and has
   * the very id the generator gives out next.
   */
  ghost predicate SubmitClash(q: Queue, b: Broadcast, invalidates: Relation) {
    exists y :: y in Elements(q.tree) - Elements(Victims(q, b, invalidates))
             && y.transmits == 0 && y.msgLen == |b.message| && y.id == NextId(q.idGen)
  }

  lemma ClashIsTwin(q: Queue, b: Broadcast, invalidates: Relation, survivors: set<Item>)
    requires survivors == Elements(q.tree) - Elements(Victims(q, b, invalidates))
    ensures SubmitClash(q, b, invalidates) <==> Twin(survivors, NewItem(q, b))
  {
  }

  lemma CountsGrow(held: set<Item>, xs: set<Item>, x: Item, handed: multiset<nat>, submitted: nat, limit: int)
    requires CountsOk(held, handed, submitted, limit) && HandedOk(handed, submitted, limit)
    requires x.tag == submitted && x.transmits == 0
    ensures CountsOk(held - xs + {x}, handed, submitted + 1, limit) && HandedOk(handed, submitted + 1, limit)
  {
  }

  /** x is a new item for a queue in which q's items xs have made way. */
  predicate Fresh(q: Queue, xs: set<Item>, x: Item) {
    && ItemOk(x) && x.tag == q.submitted && x.transmits == 0
    && (x.name in q.names ==> q.names[x.name] in xs)
  }

  lemma FreshIsNew(q: Queue, xs: set<Item>, c: Queue, x: Item, limit: int)
    requires Accounts(q, limit) && Fresh(q, xs, x)
    requires TreeOk(c.tree, c.names) && Elements(c.tree) == Elements(q.tree) - xs
    ensures NewTo(Elements(c.tree), c.names, x)
  {
    assert forall y :: y in Elements(q.tree) ==> CountOk(y, q.handed, q.submitted, limit);
  }

  lemma AddedOk(q: Queue, xs: set<Item>, c: Queue, x: Item, r: Queue, limit: int)
    requires Accounts(q, limit) && Fresh(q, xs, x) && r.idGen <= MAX_INT64
    requires Tags(c.tree) + c.finished == Tags(q.tree) + q.finished
    requires r.handed == q.handed && r.submitted == q.submitted + 1 && r.finished == c.finished
    requires TreeOk(r.tree, r.names)
    requires Elements(r.tree) == Elements(q.tree) - xs + {x}
    requires Tags(r.tree) == Tags(c.tree) + multiset{x.tag}
    ensures Accounts(r, limit)
  {
    CountsGrow(Elements(q.tree), xs, x, q.handed, q.submitted, limit);
  }

  lemma AddedTwinless(q: Queue, xs: set<Item>, c: Queue, x: Item, limit: int)
    requires Accounts(q, limit) && Fresh(q, xs, x) && Discarded(Counted(q), xs, c)
    requires !Twin(Elements(c.tree), x)
    ensures Accounts(AddItem(c, x), limit)
    ensures Elements(AddItem(c, x).tree) == Elements(q.tree) - xs + {x}
  {
    FreshIsNew(q, xs, c, x, limit);
    InsertKeepsTree(c.tree, c.names, x);
    AddedOk(q, xs, c, x, AddItem(c, x), limit);
  }

  lemma AddedTwin(q: Queue, xs: set<Item>, c: Queue, x: Item, limit: int)
    requires Accounts(q, limit) && Fresh(q, xs, x) && Discarded(Counted(q), xs, c)
    requires Twin(Elements(c.tree), x)
    ensures !Accounts(AddItem(c, x), limit)
  {
    var y :| y in Elements(c.tree) && Equivalent(y, x);
    assert y in Elements(q.tree) && CountOk(y, q.handed, q.submitted, limit);
    InsertSorts(c.tree, x);
    QueuedIsUnfinished(c.tree, multiset{}, c.finished, q.submitted, y);
    forall z | z in Insert(c.tree, x) ensures z.tag != y.tag {
      assert z == x || (z in Elements(c.tree) && z in Elements(q.tree));
    }
    LostMeansWrong(AddItem(c, x), limit, y.tag);
  }

  lemma NewItemIsFresh(q: Queue, b: Broadcast, invalidates: Relation, limit: int)
    requires Accounts(q, limit)
    ensures Fresh(q, Elements(Victims(q, b, invalidates)), NewItem(q, b))
  {
    VictimsAreQueued(q, b, invalidates);
  }

  /** Submitting keeps the accounts exactly when the new item does not pass for one that stays. */
  lemma SubmitAccountsIff(q: Queue, b: Broadcast, invalidates: Relation, limit: int)
    requires Accounts(q, limit)
    ensures Accounts(Enqueue(q, b, invalidates), limit) <==> !SubmitClash(q, b, invalidates)
  {
    var x, xs, c := NewItem(q, b), Elements(Victims(q, b, invalidates)), Cleared(q, b, invalidates);
    NewItemIsFresh(q, b, invalidates, limit);
    ClearedIs(q, b, invalidates);
    ClashIsTwin(q, b, invalidates, Elements(c.tree));
    if Twin(Elements(c.tree), x) {
      AddedTwin(q, xs, c, x, limit);
    } else {
      AddedTwinless(q, xs, c, x, limit);
    }
  }

  // ---------------------------------------------------------------- pruning, resetting

  lemma DropOneOk(q: Queue, x: Item, r: Queue, limit: int)
    requires Accounts(q, limit) && x in Elements(q.tree) && r == DeleteItem(Finish(q, x), x)
    ensures Accounts(r, limit) && Elements(r.tree) == Elements(q.tree) - {x}
    ensures r.idGen == if r.tree == [] then 0 else q.idGen
  {
    DiscardOne(q, x);
  }

  lemma {:induction false} PruneOk(q: Queue, n: int, limit: int)
    requires Accounts(q, limit)
    ensures Accounts(Prune(q, n), limit)
    decreases |q.tree|
  {
    if !(|q.tree| <= n || q.tree == []) {
      var x := q.tree[|q.tree| - 1];
      DropOneOk(q, x, DeleteItem(Finish(q, x), x), limit);
      PruneOk(DeleteItem(Finish(q, x), x), n, limit);
    }
  }

  lemma ResetOk(q: Queue, limit: int)
    requires Accounts(q, limit)
    ensures Accounts(Reset(q), limit) && Reset(q).finished == UpTo(q.submitted)
    ensures Reset(q) == EMPTY.(submitted := q.submitted, finished := UpTo(q.submitted), handed := q.handed)
  {
  }

  // ------------------------------------------------------------------- handing out

  predicate Apart(x: Item, y: Item) {
    x.tag != y.tag && (x.name == "" || x.name != y.name)
  }

  /** The items waiting to go back in are new to the tree and to one another. */
  ghost predicate LaterOk(held: set<Item>, names: map<string, Item>, later: seq<Item>) {
    && (forall i :: 0 <= i < |later| ==> ItemOk(later[i]) && NewTo(held, names, later[i]))
    && (forall i, j :: 0 <= i < j < |later| ==> Apart(later[i], later[j]))
  }

  /** A queue with the items later still to go back in: together they satisfy the accounts. */
  ghost predicate SplitOk(q: Queue, later: seq<Item>, limit: int) {
    && TreeOk(q.tree, q.names) && q.idGen <= MAX_INT64
    && LaterOk(Elements(q.tree), q.names, later)
    && Tags(q.tree) + Tags(later) + q.finished == UpTo(q.submitted)
    && CountsOk(Elements(q.tree) + Elements(later), q.handed, q.submitted, limit)
    && HandedOk(q.handed, q.submitted, limit)
  }

  function Bumped(x: Item): Item {
    x.(transmits := x.transmits + 1)
  }

  /** y would be taken for x if it were sent once more. */
  predicate Follows(x: Item, y: Item) {
    Equivalent(Bumped(y), x)
  }

  ghost predicate Distinct(later: seq<Item>) {
    forall i, j :: 0 <= i < j < |later| ==> !Equivalent(later[i], later[j])
  }

  /** The items waiting to go back in differ from one another, and so would anything still to be sent. */
  ghost predicate LaterDiffer(held: set<Item>, later: seq<Item>) {
    && Distinct(later)
    && (forall i, y :: 0 <= i < |later| && y in held ==> !Follows(later[i], y))
  }

  lemma BumpSeparates(tree: seq<Item>, later: seq<Item>, x: Item)
    requires Sorted(tree) && x in tree && LaterDiffer(Elements(tree), later)
    ensures LaterDiffer(Elements(tree) - {x}, later)
    ensures LaterDiffer(Elements(tree) - {x}, later + [Bumped(x)])
  {
    SortedApart(tree, x);
    assert forall y :: y in Elements(tree) && y != x ==> !Equivalent(y, x);
    assert x in Elements(tree);
  }

  lemma LaterAfterRemove(held: set<Item>, names: map<string, Item>, later: seq<Item>, x: Item)
    requires HeldOk(held, names) && LaterOk(held, names, later) && x in held
    ensures LaterOk(held - {x}, Unindexed(names, x), later)
    ensures NewTo(held - {x}, Unindexed(names, x), x)
    ensures forall i :: 0 <= i < |later| ==> Apart(later[i], x)
  {
  }

  lemma LaterGrows(held: set<Item>, names: map<string, Item>, later: seq<Item>, x: Item)
    requires LaterOk(held, names, later) && ItemOk(x) && NewTo(held, names, x)
    requires forall i :: 0 <= i < |later| ==> Apart(later[i], x)
    ensures LaterOk(held, names, later + [x])
  {
  }

  /** Handing out x once more keeps every count in step, x's own included. */
  lemma CountsAfterTake(held: set<Item>, x: Item, handed: multiset<nat>, submitted: nat, limit: int)
    requires CountsOk(held, handed, submitted, limit) && HandedOk(handed, submitted, limit)
    requires x in held && forall y :: y in held && y.tag == x.tag ==> y == x
    ensures CountsOk(held - {x}, handed + multiset{x.tag}, submitted, limit)
    ensures x.transmits + 1 < limit ==> CountOk(x.(transmits := x.transmits + 1), handed + multiset{x.tag}, submitted, limit)
    ensures HandedOk(handed + multiset{x.tag}, submitted, limit)
  {
  }

  lemma TakeCounts(held: set<Item>, later: seq<Item>, names: map<string, Item>, x: Item,
                   handed: multiset<nat>, submitted: nat, limit: int)
    requires HeldOk(held, names) && LaterOk(held, names, later) && x in held
    requires CountsOk(held + Elements(later), handed, submitted, limit) && HandedOk(handed, submitted, limit)
    ensures var handed2 := handed + multiset{x.tag};
      && HandedOk(handed2, submitted, limit)
      && CountsOk(held - {x} + Elements(later), handed2, submitted, limit)
      && (x.transmits + 1 < limit ==>
           CountsOk(held - {x} + Elements(later + [Bumped(x)]), handed2, submitted, limit))
  {
    var all := held + Elements(later);
    assert forall y :: y in Elements(later) ==> y.tag != x.tag;
    CountsAfterTake(all, x, handed, submitted, limit);
    assert forall y :: y in Elements(later) ==> y != x;
    ElementsAppend(later, [Bumped(x)]);
    assert Elements([Bumped(x)]) == {Bumped(x)};
  }

  lemma TakeLater(held: set<Item>, names: map<string, Item>, later: seq<Item>, x: Item)
    requires HeldOk(held, names) && LaterOk(held, names, later) && x in held
    ensures LaterOk(held - {x}, Unindexed(names, x), later)
    ensures LaterOk(held - {x}, Unindexed(names, x), later + [Bumped(x)])
  {
    LaterAfterRemove(held, names, later, x);
    LaterGrows(held - {x}, Unindexed(names, x), later, Bumped(x));
  }

  /** What Take leaves of the queue, whichever way x goes. */
  ghost predicate Removed(q: Queue, x: Item, r: Queue) {
    && TreeOk(r.tree, r.names) && r.idGen <= MAX_INT64
    && r.names == Unindexed(q.names, x)
    && Elements(r.tree) == Elements(q.tree) - {x}
    && Tags(q.tree) == Tags(r.tree) + multiset{x.tag}
    && r.handed == q.handed + multiset{x.tag} && r.submitted == q.submitted
  }

  lemma SplitAfterFinish(q: Queue, later: seq<Item>, x: Item, r: Queue, limit: int)
    requires SplitOk(q, later, limit) && x in Elements(q.tree)
    requires Removed(q, x, r) && r.finished == q.finished + multiset{x.tag}
    ensures SplitOk(r, later, limit)
  {
    TakeLater(Elements(q.tree), q.names, later, x);
    TakeCounts(Elements(q.tree), later, q.names, x, q.handed, q.submitted, limit);
  }

  lemma SplitAfterBump(q: Queue, later: seq<Item>, x: Item, r: Queue, later2: seq<Item>, limit: int)
    requires SplitOk(q, later, limit) && x in Elements(q.tree) && x.transmits + 1 < limit
    requires Removed(q, x, r) && r.finished == q.finished && later2 == later + [Bumped(x)]
    ensures SplitOk(r, later2, limit)
  {
    TakeLater(Elements(q.tree), q.names, later, x);
    TakeCounts(Elements(q.tree), later, q.names, x, q.handed, q.submitted, limit);
    TagsOfAppend(later, Bumped(x));
  }

  lemma HandOutRemoves(q: Queue, x: Item)
    requires TreeOk(q.tree, q.names) && q.idGen <= MAX_INT64 && x in Elements(q.tree)
    ensures Removed(q, x, HandOut(q, x))
  {
    DeleteKeepsTree(q.tree, q.names, x);
  }

  ghost predicate PackOk(p: Pack, limit: int) {
    SplitOk(p.q, p.later, limit) && LaterDiffer(Elements(p.q.tree), p.later)
  }

  lemma TakeLastOk(p: Pack, x: Item, c: Budget)
    requires PackOk(p, c.transmits) && x in Elements(p.q.tree) && x.transmits + 1 >= c.transmits
    ensures PackOk(Take(p, x, c), c.transmits)
  {
    HandOutRemoves(p.q, x);
    SplitAfterFinish(p.q, p.later, x, Finish(HandOut(p.q, x), x), c.transmits);
    BumpSeparates(p.q.tree, p.later, x);
  }

  lemma TakeAgainOk(p: Pack, x: Item, c: Budget)
    requires PackOk(p, c.transmits) && x in Elements(p.q.tree) && x.transmits + 1 < c.transmits
    ensures PackOk(Take(p, x, c), c.transmits)
  {
    HandOutRemoves(p.q, x);
    var r := Take(p, x, c);
    SplitAfterBump(p.q, p.later, x, r.q, r.later, c.transmits);
    BumpSeparates(p.q.tree, p.later, x);
  }

  lemma TurnOk(p: Pack, c: Budget)
    requires PackOk(p, c.transmits) && 0 < Free(p, c)
    ensures PackOk(Turn(p, c), c.transmits)
  {
    match Scan(p.q.tree, p.tier, Free(p, c))
    case None =>
    case Some(x) => if x.transmits + 1 >= c.transmits { TakeLastOk(p, x, c); } else { TakeAgainOk(p, x, c); }
  }

  lemma {:induction false} DrainOk(p: Pack, maxTier: nat, c: Budget)
    requires PackOk(p, c.transmits)
    ensures PackOk(Drain(p, maxTier, c), c.transmits)
    decreases maxTier + 1 - p.tier, |p.q.tree|
  {
    if !Stopped(p, maxTier, c) {
      TurnOk(p, c);
      DrainOk(Turn(p, c), maxTier, c);
    }
  }

  lemma StartOk(q: Queue, tier: nat, limit: int)
    requires Accounts(q, limit)
    ensures PackOk(Pack(q, tier, 0, [], []), limit)
  {
    assert Elements<Item>([]) == {};
  }

  lemma PackedOk(q: Queue, c: Budget)
    requires Accounts(q, c.transmits)
    ensures PackOk(Packed(q, c), c.transmits)
  {
    if q.tree == [] {
      StartOk(q, 0, c.transmits);
    } else {
      StartOk(q, q.tree[0].transmits, c.transmits);
      DrainOk(Pack(q, q.tree[0].transmits, 0, [], []), q.tree[|q.tree| - 1].transmits, c);
    }
  }

  // ------------------------------------------------------------------ putting back

  /** Some item waiting to go back in passes for one that was left. */
  ghost predicate LaterTwin(tree: seq<Item>, later: seq<Item>) {
    exists l :: l in later && Twin(Elements(tree), l)
  }

  lemma LaterAfterPut(held: set<Item>, names: map<string, Item>, later: seq<Item>)
    requires LaterOk(held, names, later) && later != []
    ensures LaterOk(held + {later[0]}, Indexed(names, later[0]), later[1..])
  {
  }

  lemma TwinAfterPut(tree: seq<Item>, later: seq<Item>, now: seq<Item>)
    requires later != [] && !LaterTwin(tree, later) && Elements(now) == Elements(tree) + {later[0]} && Distinct(later)
    ensures !LaterTwin(now, later[1..]) && Distinct(later[1..])
  {
    forall l | l in later[1..] ensures !Twin(Elements(now), l) {
      var i :| 0 <= i < |later| - 1 && later[1..][i] == l;
      assert later[i + 1] == l && l in later;
    }
  }

  lemma SplitAfterPut(q: Queue, later: seq<Item>, r: Queue, limit: int)
    requires SplitOk(q, later, limit) && later != [] && r == AddItem(q, later[0]) && !Twin(Elements(q.tree), later[0])
    ensures SplitOk(r, later[1..], limit)
    ensures Elements(r.tree) == Elements(q.tree) + {later[0]}
  {
    MoveOver(Elements(q.tree), later);
    InsertKeepsTree(q.tree, q.names, later[0]);
    LaterAfterPut(Elements(q.tree), q.names, later);
  }

  lemma NothingLater(q: Queue, limit: int)
    requires SplitOk(q, [], limit)
    ensures Accounts(q, limit)
  {
    assert Elements<Item>([]) == {};
  }

  lemma FirstHasNoTwin(tree: seq<Item>, later: seq<Item>)
    requires later != [] && !LaterTwin(tree, later)
    ensures !Twin(Elements(tree), later[0])
  {
    assert later[0] in later;
  }

  /** Putting items back that differ from all that was left restores the accounts. */
  lemma {:induction false} AddAllOk(q: Queue, later: seq<Item>, limit: int)
    requires SplitOk(q, later, limit) && !LaterTwin(q.tree, later) && Distinct(later)
    ensures Accounts(AddAll(q, later), limit)
    decreases |later|
  {
    if later == [] {
      NothingLater(q, limit);
    } else {
      FirstHasNoTwin(q.tree, later);
      SplitAfterPut(q, later, AddItem(q, later[0]), limit);
      TwinAfterPut(q.tree, later, AddItem(q, later[0]).tree);
      AddAllOk(AddItem(q, later[0]), later[1..], limit);
    }
  }

  lemma {:induction false} AddAllWithin(q: Queue, later: seq<Item>)
    requires Sorted(q.tree)
    ensures Elements(AddAll(q, later).tree) <= Elements(q.tree) + Elements(later)
    ensures AddAll(q, later).finished == q.finished && AddAll(q, later).submitted == q.submitted
    ensures AddAll(q, later).idGen == q.idGen
    decreases |later|
  {
    if later != [] {
      MoveOver(Elements(q.tree), later);
      InsertSorts(q.tree, later[0]);
      AddAllWithin(AddItem(q, later[0]), later[1..]);
    }
  }

  /** An item left behind disappears once one that passes for it goes back in. */
  lemma {:induction false} TwinDisappears(q: Queue, later: seq<Item>, y: Item)
    requires Sorted(q.tree) && y !in later && exists l :: l in later && Equivalent(y, l)
    ensures y !in AddAll(q, later).tree
    decreases |later|
  {
    var r := AddItem(q, later[0]);
    InsertSorts(q.tree, later[0]);
    if Equivalent(y, later[0]) {
      AddAllWithin(r, later[1..]);
      assert y !in Elements(r.tree) && y !in Elements(later[1..]);
      assert y !in Elements(AddAll(r, later[1..]).tree);
    } else {
      TwinDisappears(r, later[1..], y);
    }
  }

  lemma TwinIsLost(q: Queue, later: seq<Item>, limit: int)
    requires SplitOk(q, later, limit) && LaterTwin(q.tree, later)
    ensures !Accounts(AddAll(q, later), limit)
  {
    var l :| l in later && Twin(Elements(q.tree), l);
    var y :| y in Elements(q.tree) && Equivalent(y, l);
    var r := AddAll(q, later);
    assert CountOk(y, q.handed, q.submitted, limit);
    assert y !in later;
    TwinDisappears(q, later, y);
    AddAllWithin(q, later);
    QueuedIsUnfinished(q.tree, Tags(later), q.finished, q.submitted, y);
    forall z | z in r.tree ensures z.tag != y.tag {
      assert z in Elements(r.tree);
    }
    LostMeansWrong(r, limit, y.tag);
  }

  /** Something left behind has the length, the id and the new transmit count of something sent. */
  ghost predicate GiveClash(q: Queue, c: Budget) {
    LaterTwin(Packed(q, c).q.tree, Packed(q, c).later)
  }

  /** Handing out keeps the accounts exactly when nothing that goes back in passes for what was left. */
  lemma GiveAccountsIff(q: Queue, c: Budget)
    requires Accounts(q, c.transmits)
    ensures Accounts(GetBroadcasts(q, c), c.transmits) <==> !GiveClash(q, c)
  {
    var p := Packed(q, c);
    PackedOk(q, c);
    if GiveClash(q, c) {
      TwinIsLost(p.q, p.later, c.transmits);
    } else {
      AddAllOk(p.q, p.later, c.transmits);
    }
  }

  /** A call that empties the queue, restarting the generator, does no harm by itself. */
  lemma EmptyingIsHarmless(q: Queue, c: Budget)
    requires Accounts(q, c.transmits) && Packed(q, c).q.tree == []
    ensures !GiveClash(q, c) && Accounts(GetBroadcasts(q, c), c.transmits)
  {
    GiveAccountsIff(q, c);
  }

  // ------------------------------------------------------------------------ runs

  /** What goes in passes for something that stays. */
  ghost predicate Clash(q: Queue, op: Op, invalidates: Relation, transmits: int) {
    match op
    case Submit(b) => SubmitClash(q, b, invalidates)
    case Give(overhead, limit) => GiveClash(q, Budget(overhead, limit, transmits))
    case _ => false
  }

  lemma StepAccountsIff(q: Queue, op: Op, invalidates: Relation, transmits: int)
    requires Accounts(q, transmits)
    ensures Accounts(Apply(q, op, invalidates, transmits), transmits) <==> !Clash(q, op, invalidates, transmits)
  {
    match op
    case Submit(b) => SubmitAccountsIff(q, b, invalidates, transmits);
    case Give(overhead, limit) => GiveAccountsIff(q, Budget(overhead, limit, transmits));
    case Cut(n) => PruneOk(q, n, transmits);
    case Wipe => ResetOk(q, transmits);
  }

  ghost predicate NeverClashes(ops: seq<Op>, invalidates: Relation, transmits: int) {
    forall i :: 0 <= i < |ops| ==> !Clash(Run(ops[..i], invalidates, transmits), ops[i], invalidates, transmits)
  }

  ghost predicate AlwaysAccounts(ops: seq<Op>, invalidates: Relation, transmits: int) {
    forall i :: 0 <= i <= |ops| ==> Accounts(Run(ops[..i], invalidates, transmits), transmits)
  }

  lemma RunNext(ops: seq<Op>, i: nat, invalidates: Relation, transmits: int)
    requires i < |ops|
    ensures Run(ops[..i + 1], invalidates, transmits) ==
      Apply(Run(ops[..i], invalidates, transmits), ops[i], invalidates, transmits)
  {
    assert ops[..i + 1][..i] == ops[..i];
  }

  lemma NothingYet(limit: int)
    ensures Accounts(EMPTY, limit) && Elements(EMPTY.tree) == {}
  {
  }

  lemma {:induction false} PrefixAccounts(ops: seq<Op>, i: nat, invalidates: Relation, transmits: int)
    requires NeverClashes(ops, invalidates, transmits) && i <= |ops|
    ensures Accounts(Run(ops[..i], invalidates, transmits), transmits)
  {
    if i == 0 {
      NothingYet(transmits);
    } else {
      PrefixAccounts(ops, i - 1, invalidates, transmits);
      RunNext(ops, i - 1, invalidates, transmits);
      StepAccountsIff(Run(ops[..i - 1], invalidates, transmits), ops[i - 1], invalidates, transmits);
    }
  }

  /** Over every run: the accounts are right throughout exactly when nothing ever clashes. */
  lemma RunAccountsIff(ops: seq<Op>, invalidates: Relation, transmits: int)
    ensures AlwaysAccounts(ops, invalidates, transmits) <==> NeverClashes(ops, invalidates, transmits)
  {
    if NeverClashes(ops, invalidates, transmits) {
      forall i | 0 <= i <= |ops| ensures Accounts(Run(ops[..i], invalidates, transmits), transmits) {
        PrefixAccounts(ops, i, invalidates, transmits);
      }
    } else {
      var i :| 0 <= i < |ops| && Clash(Run(ops[..i], invalidates, transmits), ops[i], invalidates, transmits);
      RunNext(ops, i, invalidates, transmits);
      if Accounts(Run(ops[..i], invalidates, transmits), transmits) {
        StepAccountsIff(Run(ops[..i], invalidates, transmits), ops[i], invalidates, transmits);
      }
    }
  }

  // --------------------------------------------------- a generator that does not restart

  /** The new broadcast displaces everything queued, so the id generator restarts under it. */
  ghost predicate DisplacesAll(q: Queue, b: Broadcast, invalidates: Relation) {
    q.tree != [] && Elements(q.tree) <= Elements(Victims(q, b, invalidates))
  }

  /** The generator neither wraps nor restarts while an item is on its way in. */
  ghost predicate Steady(q: Queue, op: Op, invalidates: Relation, transmits: int) {
    match op
    case Submit(b) => q.idGen < MAX_INT64 && !DisplacesAll(q, b, invalidates)
    case Give(overhead, limit) => !EmptiedUnder(Packed(q, Budget(overhead, limit, transmits)))
    case _ => true
  }

  ghost predicate SteadyRun(ops: seq<Op>, invalidates: Relation, transmits: int) {
    forall i :: 0 <= i < |ops| ==> Steady(Run(ops[..i], invalidates, transmits), ops[i], invalidates, transmits)
  }

  ghost predicate IdsApart(held: set<Item>, top: nat) {
    && (forall x, y :: x in held && y in held && x.id == y.id ==> x == y)
    && (forall x :: x in held ==> x.id <= top)
  }

  /** Ids are unique and none is ahead of the generator. */
  ghost predicate IdsOk(q: Queue) {
    IdsApart(Elements(q.tree), q.idGen)
  }

  lemma RestartIff(q: Queue, xs: set<Item>, c: Queue)
    requires xs <= Elements(q.tree) && Discarded(q, xs, c) && 0 < q.idGen
    ensures c.idGen == if q.tree != [] && Elements(q.tree) <= xs then 0 else q.idGen
  {
    ElementsEmpty(c.tree);
    ElementsEmpty(q.tree);
    DifferenceEmpty(Elements(q.tree), xs);
  }

  lemma SubmitSteady(q: Queue, b: Broadcast, invalidates: Relation, limit: int)
    requires Accounts(q, limit) && IdsOk(q) && q.idGen < MAX_INT64 && !DisplacesAll(q, b, invalidates)
    ensures !SubmitClash(q, b, invalidates) && IdsOk(Enqueue(q, b, invalidates))
  {
    var x, xs, c := NewItem(q, b), Elements(Victims(q, b, invalidates)), Cleared(q, b, invalidates);
    NewItemIsFresh(q, b, invalidates, limit);
    VictimsAreQueued(q, b, invalidates);
    ClearedIs(q, b, invalidates);
    ClashIsTwin(q, b, invalidates, Elements(c.tree));
    RestartIff(Counted(q), xs, c);
    IdsGrow(Elements(q.tree), xs, x, q.idGen);
    AddedTwinless(q, xs, c, x, limit);
  }

  lemma IdsGrow(held: set<Item>, xs: set<Item>, x: Item, top: nat)
    requires IdsApart(held, top) && x.id == top + 1
    ensures IdsApart(held - xs + {x}, top + 1) && !Twin(held - xs, x)
  {
  }

  /** The ids of what is queued or waits to go back in stay unique through a call. */
  ghost predicate PackIds(p: Pack, top: nat) {
    && IdsApart(Elements(p.q.tree) + Elements(p.later), top)
    && (forall y, l :: y in p.q.tree && l in p.later ==> y.id != l.id)
    && p.q.idGen == if p.q.tree == [] then 0 else top
  }

  lemma TakeIds(p: Pack, x: Item, c: Budget, top: nat)
    requires Sorted(p.q.tree) && PackIds(p, top) && x in p.q.tree
    ensures PackIds(Take(p, x, c), top)
  {
    var r := Take(p, x, c);
    DeleteSorts(p.q.tree, x);
    ElementsAppend(p.later, [Bumped(x)]);
    assert Elements([Bumped(x)]) == {Bumped(x)};
    assert x in Elements(p.q.tree);
    assert Elements(r.q.tree) == Elements(p.q.tree) - {x};
  }

  lemma {:induction false} DrainIds(p: Pack, maxTier: nat, c: Budget, top: nat)
    requires Sorted(p.q.tree) && PackIds(p, top)
    ensures PackIds(Drain(p, maxTier, c), top)
    decreases maxTier + 1 - p.tier, |p.q.tree|
  {
    if !Stopped(p, maxTier, c) {
      match Scan(p.q.tree, p.tier, Free(p, c)) {
        case None =>
        case Some(x) =>
          TakeIds(p, x, c, top);
          DeleteKeepsOrder(p.q.tree, x);
      }
      DrainIds(Turn(p, c), maxTier, c, top);
    }
  }

  lemma GiveSteady(q: Queue, c: Budget)
    requires Accounts(q, c.transmits) && IdsOk(q) && !EmptiedUnder(Packed(q, c))
    ensures !GiveClash(q, c) && IdsOk(GetBroadcasts(q, c))
  {
    var p := Packed(q, c);
    assert Elements<Item>([]) == {};
    if q.tree != [] {
      DrainIds(Pack(q, q.tree[0].transmits, 0, [], []), q.tree[|q.tree| - 1].transmits, c, q.idGen);
      forall l | l in p.later ensures !Twin(Elements(p.q.tree), l) {
      }
    }
    PackedOk(q, c);
    AddAllWithin(p.q, p.later);
    ElementsEmpty(p.later);
  }

  lemma {:induction false} PruneIds(q: Queue, n: int, limit: int)
    requires Accounts(q, limit) && IdsOk(q)
    ensures IdsOk(Prune(q, n))
    decreases |q.tree|
  {
    if !(|q.tree| <= n || q.tree == []) {
      var x := q.tree[|q.tree| - 1];
      var r := DeleteItem(Finish(q, x), x);
      DropOneOk(q, x, r, limit);
      ElementsEmpty(r.tree);
      PruneIds(r, n, limit);
    }
  }

  lemma StepSteady(q: Queue, op: Op, invalidates: Relation, transmits: int)
    requires Accounts(q, transmits) && IdsOk(q) && Steady(q, op, invalidates, transmits)
    ensures !Clash(q, op, invalidates, transmits) && IdsOk(Apply(q, op, invalidates, transmits))
  {
    match op
    case Submit(b) => SubmitSteady(q, b, invalidates, transmits);
    case Give(overhead, limit) => GiveSteady(q, Budget(overhead, limit, transmits));
    case Cut(n) => PruneIds(q, n, transmits);
    case Wipe =>
  }

  lemma {:induction false} PrefixSteady(ops: seq<Op>, i: nat, invalidates: Relation, transmits: int)
    requires SteadyRun(ops, invalidates, transmits) && i <= |ops|
    ensures Accounts(Run(ops[..i], invalidates, transmits), transmits) && IdsOk(Run(ops[..i], invalidates, transmits))
    ensures i < |ops| ==> !Clash(Run(ops[..i], invalidates, transmits), ops[i], invalidates, transmits)
  {
    if i == 0 {
      NothingYet(transmits);
    } else {
      PrefixSteady(ops, i - 1, invalidates, transmits);
      RunNext(ops, i - 1, invalidates, transmits);
      StepAccountsIff(Run(ops[..i - 1], invalidates, transmits), ops[i - 1], invalidates, transmits);
      StepSteady(Run(ops[..i - 1], invalidates, transmits), ops[i - 1], invalidates, transmits);
    }
    if i < |ops| {
      StepSteady(Run(ops[..i], invalidates, transmits), ops[i], invalidates, transmits);
    }
  }

  /** A run whose generator neither wraps nor restarts under an item never clashes. */
  lemma SteadyNeverClashes(ops: seq<Op>, invalidates: Relation, transmits: int)
    requires SteadyRun(ops, invalidates, transmits)
    ensures NeverClashes(ops, invalidates, transmits)
  {
    forall i | 0 <= i < |ops| ensures !Clash(Run(ops[..i], invalidates, transmits), ops[i], invalidates, transmits) {
      PrefixSteady(ops, i, invalidates, transmits);
    }
  }

  // ------------------------------------------------------------------ when it goes wrong

  // Four submissions: a, a again, b, c, all one byte long.

  function OneByte(name: string): Broadcast {
    Broadcast(Named(name), [0])
  }

  function ShortItem(id: nat, name: string, tag: nat): Item {
    Item(0, 1, id, OneByte(name), name, tag)
  }

  function LossyRun(): seq<Op> {
    [Submit(OneByte("a")), Submit(OneByte("a")), Submit(OneByte("b")), Submit(OneByte("c"))]
  }

  function LossyStates(): seq<Queue> {
    var a0, a1, b, c := ShortItem(1, "a", 0), ShortItem(2, "a", 1), ShortItem(1, "b", 2), ShortItem(2, "c", 3);
    [EMPTY,
     Queue([a0], map["a" := a0], 1, 1, multiset{}, multiset{}),
     Queue([a1], map["a" := a1], 0, 2, multiset{0}, multiset{}),
     Queue([a1, b], map["a" := a1, "b" := b], 1, 3, multiset{0}, multiset{}),
     Queue([c, b], map["a" := a1, "b" := b, "c" := c], 2, 4, multiset{0}, multiset{})]
  }

  lemma LossyStep(i: nat, invalidates: Relation, transmits: int)
    requires i < 4
    ensures Apply(LossyStates()[i], LossyRun()[i], invalidates, transmits) == LossyStates()[i + 1]
  {
    var q, b := LossyStates()[i], LossyRun()[i].b;
    var c := Cleared(q, b, invalidates);
    if i == 1 {
      assert Discard(c, []) == c;
      assert c.tree == [] && c.names == map[];
    }
    assert NewItem(q, b) == [ShortItem(1, "a", 0), ShortItem(2, "a", 1), ShortItem(1, "b", 2), ShortItem(2, "c", 3)][i];
    assert i == 2 ==> Insert(c.tree, NewItem(q, b)) == LossyStates()[3].tree;
    assert i == 3 ==> Insert(c.tree, NewItem(q, b)) == LossyStates()[4].tree;
    assert AddItem(c, NewItem(q, b)).names == LossyStates()[i + 1].names;
  }

  lemma {:induction false} LossyPrefix(i: nat, invalidates: Relation, transmits: int)
    requires i <= 4
    ensures Run(LossyRun()[..i], invalidates, transmits) == LossyStates()[i]
  {
    if i > 0 {
      LossyPrefix(i - 1, invalidates, transmits);
      LossyStep(i - 1, invalidates, transmits);
      assert LossyRun()[..i][..i - 1] == LossyRun()[..i - 1];
    }
  }

  /**
   * The second submission of a is gone without having been finished, while the index still
   * lists it: the second step restarts the generator and the fourth reuses its id.
   */
  lemma RestartLosesABroadcast(invalidates: Relation, transmits: int)
    ensures var q := Run(LossyRun(), invalidates, transmits);
      && q.submitted == 4 && Tags(q.tree)[1] == 0 && q.finished[1] == 0
      && "a" in q.names && q.names["a"] !in q.tree
    ensures SubmitClash(Run(LossyRun()[..3], invalidates, transmits), OneByte("c"), invalidates)
  {
    LossyPrefix(3, invalidates, transmits);
    LossyPrefix(4, invalidates, transmits);
    assert LossyRun()[..4] == LossyRun();
    TagsOfNone(LossyStates()[4].tree, 1);
    LossyClash(invalidates);
  }

  lemma LossyClash(invalidates: Relation)
    ensures SubmitClash(LossyStates()[3], OneByte("c"), invalidates)
  {
    var q := LossyStates()[3];
    assert Victims(q, OneByte("c"), invalidates) == [];
    assert q.tree[0] in Elements(q.tree);
  }

  // Two submissions and two ticks: a, a tick that empties the queue, b, a tick with room for one.

  function Ticks(): seq<Op> {
    [Submit(OneByte("a")), Give(2, 1398), Submit(OneByte("b")), Give(2, 4)]
  }

  function SentOnce(name: string, tag: nat): Item {
    Item(1, 1, 1, OneByte(name), name, tag)
  }

  function TickStates(): seq<Queue> {
    var a, b := ShortItem(1, "a", 0), ShortItem(1, "b", 1);
    var a1, b1 := SentOnce("a", 0), SentOnce("b", 1);
    [EMPTY,
     Queue([a], map["a" := a], 1, 1, multiset{}, multiset{}),
     Queue([a1], map["a" := a1], 0, 1, multiset{}, multiset{0}),
     Queue([b, a1], map["a" := a1, "b" := b], 1, 2, multiset{}, multiset{0}),
     Queue([b1], map["a" := a1, "b" := b1], 1, 2, multiset{}, multiset{0, 1})]
  }

  lemma FirstTick()
    ensures GetBroadcasts(TickStates()[1], Budget(2, 1398, 4)) == TickStates()[2]
  {
    var q, c := TickStates()[1], Budget(2, 1398, 4);
    var a, a1 := q.tree[0], SentOnce("a", 0);
    var p0 := Pack(q, 0, 0, [], []);
    var gone := Queue([], map[], 0, 1, multiset{}, multiset{0});
    var p1 := Pack(gone, 0, 3, [a], [a1]);
    assert Scan(q.tree, 0, 1396) == Some(a);
    assert HandOut(q, a) == gone;
    assert Turn(p0, c) == p1;
    assert Turn(p1, c) == p1.(tier := 1);
    assert Packed(q, c) == p1.(tier := 1);
    assert AddAll(gone, [a1]) == AddAll(AddItem(gone, a1), []) == TickStates()[2];
  }

  lemma SecondTick()
    ensures var q, c := TickStates()[3], Budget(2, 4, 4);
      && Packed(q, c).q.tree == [SentOnce("a", 0)] && Packed(q, c).later == [SentOnce("b", 1)]
      && GetBroadcasts(q, c) == TickStates()[4]
  {
    var q, c := TickStates()[3], Budget(2, 4, 4);
    var b, a1, b1 := q.tree[0], SentOnce("a", 0), SentOnce("b", 1);
    var p0 := Pack(q, 0, 0, [], []);
    var left := Queue([a1], map["a" := a1], 1, 2, multiset{}, multiset{0, 1});
    assert Scan(q.tree, 0, 2) == Some(b);
    assert HandOut(q, b) == left;
    var p1 := Pack(left, 0, 3, [b], [b1]);
    assert Turn(p0, c) == p1;
    assert Drain(p0, 1, c) == Drain(p1, 1, c) == p1;
    assert Packed(q, c) == p1;
    assert Insert([a1], b1) == [b1];
    assert AddItem(left, b1) == TickStates()[4];
    assert AddAll(left, [b1]) == AddAll(AddItem(left, b1), []);
  }

  lemma TickStep(i: nat, invalidates: Relation)
    requires i < 4
    ensures Apply(TickStates()[i], Ticks()[i], invalidates, 4) == TickStates()[i + 1]
  {
    match i
    case 0 => assert Discard(Counted(EMPTY), []) == Counted(EMPTY);
    case 1 => FirstTick();
    case 2 =>
      var q := TickStates()[2];
      var b := NewItem(q, OneByte("b"));
      assert Discard(Counted(q), []) == Counted(q);
      assert Insert(q.tree, b) == [b] + q.tree;
    case _ => SecondTick();
  }

  lemma {:induction false} TickPrefix(i: nat, invalidates: Relation)
    requires i <= 4
    ensures Run(Ticks()[..i], invalidates, 4) == TickStates()[i]
  {
    if i > 0 {
      TickPrefix(i - 1, invalidates);
      TickStep(i - 1, invalidates);
      RunNext(Ticks(), i - 1, invalidates, 4);
    }
  }

  /** After one of its four transmissions a is gone, neither queued nor finished. */
  lemma TickLosesABroadcast(invalidates: Relation)
    ensures var q := Run(Ticks(), invalidates, 4);
      q.submitted == 2 && Tags(q.tree)[0] == 0 && q.finished[0] == 0 && q.handed[0] == 1
    ensures GiveClash(Run(Ticks()[..3], invalidates, 4), Budget(2, 4, 4))
  {
    TickPrefix(3, invalidates);
    TickPrefix(4, invalidates);
    assert Ticks()[..4] == Ticks();
    SecondTick();
    var a1, b1 := SentOnce("a", 0), SentOnce("b", 1);
    assert a1 in Elements([a1]) && b1 in [b1] && Equivalent(a1, b1);
    TagsOfNone([b1], 0);
  }
}
