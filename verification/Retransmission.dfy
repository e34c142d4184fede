/** What becomes of each broadcast when the gossip queue hands some out: left alone, sent once more, or finished. */
module Retransmission {
  import opened Base
  import opened GossipQueue
  import opened QueueAccounts
  import opened QueueBounds
  import opened Replacement

  /** Sent, and due to be sent again: its next transmission is not its last. */
  predicate SentAgain(x: Item, limit: int) {
    x.transmits + 1 < limit
  }

  /** What goes back in of what was sent, with one transmission more. */
  function Returned(sent: seq<Item>, limit: int): seq<Item> {
    if sent == [] then []
    else
      var x := sent[|sent| - 1];
      Returned(sent[..|sent| - 1], limit) + if SentAgain(x, limit) then [x.(transmits := x.transmits + 1)] else []
  }

  /** What was sent for the last time. */
  function Spent(sent: seq<Item>, limit: int): seq<Item> {
    if sent == [] then []
    else
      var x := sent[|sent| - 1];
      Spent(sent[..|sent| - 1], limit) + if SentAgain(x, limit) then [] else [x]
  }

  /** Where a call stands: what it sent went back on the list or was finished, and all of it was handed out. */
  ghost predicate Settled(q: Queue, p: Pack, limit: int) {
    && p.later == Returned(p.sent, limit)
    && p.q.handed == q.handed + Tags(p.sent) && p.q.finished == q.finished + Tags(Spent(p.sent, limit))
    && p.q.submitted == q.submitted
  }

  lemma OneMoreSent(sent: seq<Item>, x: Item, limit: int)
    ensures Returned(sent + [x], limit)
      == Returned(sent, limit) + if SentAgain(x, limit) then [x.(transmits := x.transmits + 1)] else []
    ensures Spent(sent + [x], limit) == Spent(sent, limit) + if SentAgain(x, limit) then [] else [x]
  {
    assert (sent + [x])[..|sent|] == sent;
  }

  lemma TakeSorts(q: Queue, p: Pack, x: Item, c: Budget)
    requires Settled(q, p, c.transmits)
    ensures Settled(q, Take(p, x, c), c.transmits)
  {
    OneMoreSent(p.sent, x, c.transmits);
    TagsOfAppend(p.sent, x);
    TagsOfAppend(Spent(p.sent, c.transmits), x);
    assert Returned(p.sent, c.transmits) + [] == Returned(p.sent, c.transmits);
    assert Spent(p.sent, c.transmits) + [] == Spent(p.sent, c.transmits);
  }

  lemma {:induction false} DrainSorts(q: Queue, p: Pack, maxTier: nat, c: Budget)
    requires Settled(q, p, c.transmits)
    ensures Settled(q, Drain(p, maxTier, c), c.transmits)
    decreases maxTier + 1 - p.tier, |p.q.tree|
  {
    if !Stopped(p, maxTier, c) {
      var s := Scan(p.q.tree, p.tier, Free(p, c));
      if s.Some? {
        TakeSorts(q, p, s.value, c);
      }
      DrainSorts(q, Turn(p, c), maxTier, c);
    }
  }

  lemma PackedSorts(q: Queue, c: Budget)
    ensures Settled(q, Packed(q, c), c.transmits)
  {
    if q.tree != [] {
      DrainSorts(q, Pack(q, q.tree[0].transmits, 0, [], []), q.tree[|q.tree| - 1].transmits, c);
    }
  }

  lemma {:induction false} ReturnedAre(sent: seq<Item>, limit: int, z: Item)
    ensures z in Returned(sent, limit) <==>
      exists x :: x in sent && SentAgain(x, limit) && z == x.(transmits := x.transmits + 1)
  {
    if sent != [] {
      var n := |sent| - 1;
      ReturnedAre(sent[..n], limit, z);
      assert sent == sent[..n] + [sent[n]];
    }
  }

  lemma {:induction false} SpentAre(sent: seq<Item>, limit: int, x: Item)
    ensures x in Spent(sent, limit) <==> x in sent && !SentAgain(x, limit)
  {
    if sent != [] {
      var n := |sent| - 1;
      SpentAre(sent[..n], limit, x);
      assert sent == sent[..n] + [sent[n]];
    }
  }

  /** Putting back what differs from all that was left loses nothing. */
  lemma {:induction false} AddAllElements(q: Queue, later: seq<Item>, limit: int)
    requires SplitOk(q, later, limit) && !LaterTwin(q.tree, later) && Distinct(later)
    ensures Elements(AddAll(q, later).tree) == Elements(q.tree) + Elements(later)
    ensures AddAll(q, later).handed == q.handed && AddAll(q, later).finished == q.finished
    decreases |later|
  {
    if later == [] {
      assert Elements<Item>([]) == {};
    } else {
      FirstHasNoTwin(q.tree, later);
      SplitAfterPut(q, later, AddItem(q, later[0]), limit);
      TwinAfterPut(q.tree, later, AddItem(q, later[0]).tree);
      AddAllElements(AddItem(q, later[0]), later[1..], limit);
      MoveOver(Elements(q.tree), later);
    }
  }

  /** After the call: what was not sent, and what was sent and is due again, with one transmission more. */
  lemma GivenElements(q: Queue, c: Budget)
    requires Accounts(q, c.transmits) && !GiveClash(q, c)
    ensures var p, r := Packed(q, c), GetBroadcasts(q, c);
      && Elements(r.tree) == Elements(p.q.tree) + Elements(Returned(p.sent, c.transmits))
      && r.handed == q.handed + Tags(p.sent) && r.finished == q.finished + Tags(Spent(p.sent, c.transmits))
      && Elements(p.q.tree) + Elements(p.sent) == Elements(q.tree) && Elements(p.q.tree) !! Elements(p.sent)
  {
    var p := Packed(q, c);
    PackedOk(q, c);
    PackedSorts(q, c);
    PackedFits(q, c);
    AddAllElements(p.q, p.later, c.transmits);
  }

  /** What is queued afterwards: exactly what was not sent, and what was and is due again, with one transmission more. */
  lemma HandingOut(q: Queue, c: Budget, z: Item)
    requires Accounts(q, c.transmits) && !GiveClash(q, c)
    ensures var sent := Packed(q, c).sent;
      z in GetBroadcasts(q, c).tree <==>
        (z in q.tree && z !in sent)
        || exists x :: x in sent && x.transmits + 1 < c.transmits && z == x.(transmits := x.transmits + 1)
  {
    var p := Packed(q, c);
    GivenElements(q, c);
    ReturnedAre(p.sent, c.transmits, z);
    assert z in q.tree <==> z in Elements(q.tree);
    assert z in GetBroadcasts(q, c).tree <==> z in Elements(GetBroadcasts(q, c).tree);
  }

  lemma SentWereQueued(q: Queue, c: Budget, x: Item)
    requires Accounts(q, c.transmits) && !GiveClash(q, c) && x in Packed(q, c).sent
    ensures x in q.tree && CountOk(x, q.handed, q.submitted, c.transmits)
  {
    GivenElements(q, c);
    assert x in Elements(Packed(q, c).sent) && x in Elements(q.tree);
  }

  /** Everything sent is handed out once more; it is finished exactly when that was its last, the max(1, limit)-th, time. */
  lemma HandingOutCounts(q: Queue, c: Budget, x: Item)
    requires Accounts(q, c.transmits) && !GiveClash(q, c) && x in Packed(q, c).sent
    ensures var r := GetBroadcasts(q, c);
      && r.handed[x.tag] == q.handed[x.tag] + 1
      && r.finished[x.tag] == q.finished[x.tag] + (if x.transmits + 1 < c.transmits then 0 else 1)
      && (r.finished[x.tag] > q.finished[x.tag] <==> r.handed[x.tag] == Cap(c.transmits))
  {
    var p := Packed(q, c);
    GivenElements(q, c);
    PackedFits(q, c);
    SentWereQueued(q, c, x);
    forall y, z | y in p.sent && z in p.sent && y.tag == z.tag ensures y == z {
      assert y in Elements(p.sent) && z in Elements(p.sent);
      assert y in Elements(q.tree) && z in Elements(q.tree);
    }
    TagsOnce(p.sent, x.tag);
    SpentOnce(p.sent, c.transmits, x);
  }

  lemma {:induction false} SpentAreSorted(sent: seq<Item>, limit: int)
    requires Sorted(sent)
    ensures Sorted(Spent(sent, limit))
  {
    if sent != [] {
      var n := |sent| - 1;
      var rest := Spent(sent[..n], limit);
      SpentAreSorted(sent[..n], limit);
      forall i | 0 <= i < |rest| ensures Less(rest[i], sent[n]) {
        SpentAre(sent[..n], limit, rest[i]);
        var k :| 0 <= k < n && sent[..n][k] == rest[i];
        assert Less(sent[k], sent[n]);
      }
    }
  }

  lemma SpentOnce(sent: seq<Item>, limit: int, x: Item)
    requires Sorted(sent) && x in sent && forall y, z :: y in sent && z in sent && y.tag == z.tag ==> y == z
    ensures Tags(Spent(sent, limit))[x.tag] == if SentAgain(x, limit) then 0 else 1
  {
    SpentAreSorted(sent, limit);
    forall y ensures y in Spent(sent, limit) <==> y in sent && !SentAgain(y, limit) {
      SpentAre(sent, limit, y);
    }
    TagsOnce(Spent(sent, limit), x.tag);
  }
}
