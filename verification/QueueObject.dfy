/**
 * The queue as the running program keeps it: tree, index and id generator in fields,
 * updated step by step. Every method is proved against the functions of GossipQueue.
 */
module QueueObject {
  import opened Base
  import opened GossipQueue

  class TransmitLimitedQueue {
    const invalidates: Relation
    var tq: seq<Item>
    var tm: map<string, Item>
    var idGen: nat
    /** tq and tm have been made */
    var ready: bool
    /** the tag of the next submission */
    var submitted: nat
    ghost var finished: multiset<nat>
    ghost var handed: multiset<nat>

    ghost function View(): Queue
      reads this
    {
      Queue(tq, tm, idGen, submitted, finished, handed)
    }

    ghost predicate Valid()
      reads this
    {
      (!ready ==> tq == [] && tm == map[]) && idGen <= MAX_INT64
    }

    constructor (invalidates: Relation)
      ensures Valid() && View() == EMPTY && this.invalidates == invalidates
    {
      this.invalidates := invalidates;
      tq, tm, idGen, ready := [], map[], 0, false;
      submitted, finished, handed := 0, multiset{}, multiset{};
    }

    method Finished(cur: Item)
      modifies this`finished
      ensures View() == Finish(old(View()), cur)
    {
      finished := finished + multiset{cur.tag};
    }

    method RemoveItem(cur: Item)
      requires Valid()
      modifies this`tq, this`tm, this`idGen
      ensures Valid() && View() == DeleteItem(old(View()), cur)
    {
      tq := Delete(tq, cur);
      if cur.name != "" {
        tm := tm - {cur.name};
      }
      if |tq| == 0 {
        idGen := 0;
      }
    }

    method PutItem(cur: Item)
      requires Valid() && ready
      modifies this`tq, this`tm
      ensures Valid() && View() == AddItem(old(View()), cur)
    {
      tq := Insert(tq, cur);
      if cur.name != "" {
        tm := tm[cur.name := cur];
      }
    }

    /** The plain items the broadcast invalidates, in ascending order. */
    method CollectInvalidated(b: Broadcast) returns (remove: seq<Item>)
      ensures remove == Invalidated(tq, b, invalidates)
    {
      remove := [];
      var i := |tq|;
      while i > 0
        invariant 0 <= i <= |tq| && remove == Invalidated(tq[i..], b, invalidates)
      {
        i := i - 1;
        assert tq[i..][1..] == tq[i + 1..];
        var cur := tq[i];
        if cur.b.kind.Plain? && invalidates(b, cur.b) {
          remove := [cur] + remove;
        }
      }
    }

    method DiscardItems(remove: seq<Item>)
      requires Valid()
      modifies this`tq, this`tm, this`idGen, this`finished
      ensures Valid() && View() == Discard(old(View()), remove)
    {
      ghost var v := View();
      var i := 0;
      while i < |remove|
        invariant 0 <= i <= |remove| && Valid()
        invariant Discard(View(), remove[i..]) == Discard(v, remove)
      {
        assert remove[i..][1..] == remove[i + 1..];
        Finished(remove[i]);
        RemoveItem(remove[i]);
        i := i + 1;
      }
    }

    method QueueBroadcast(b: Broadcast)
      requires Valid()
      modifies this
      ensures Valid() && View() == Enqueue(old(View()), b, invalidates)
    {
      ready := true;
      idGen := if idGen == MAX_INT64 then 1 else idGen + 1;
      var lb := Item(0, |b.message|, idGen, b, b.Key(), submitted);
      submitted := submitted + 1;
      var remove: seq<Item> := [];
      if lb.name != "" {
        if lb.name in tm {
          remove := [tm[lb.name]];
        }
      } else if !b.kind.Unique? {
        remove := CollectInvalidated(b);
      }
      DiscardItems(remove);
      PutItem(lb);
    }

    /** The first item of the tier that fits. */
    method Search(transmits: nat, free: nat) returns (keep: Option<Item>)
      ensures keep == Scan(tq, transmits, free)
    {
      var ge, lt := From(transmits, free), To(transmits);
      var i := 0;
      while i < |tq|
        invariant 0 <= i <= |tq| && Scan(tq, transmits, free) == Scan(tq[i..], transmits, free)
      {
        var cur := tq[i];
        assert tq[i..][1..] == tq[i + 1..];
        if !Less(cur, ge) && Less(cur, lt) && |cur.b.message| <= free {
          return Some(cur);
        }
        i := i + 1;
      }
      return None;
    }

    /** Take one item out to be sent; unless it has reached its limit it joins those to go back in. */
    method SendItem(keep: Item, transmitLimit: int, reinsert: seq<Item>) returns (r: seq<Item>)
      requires Valid()
      modifies this`tq, this`tm, this`idGen, this`finished, this`handed
      ensures Valid()
      ensures if keep.transmits + 1 >= transmitLimit
        then r == reinsert && View() == Finish(HandOut(old(View()), keep), keep)
        else r == reinsert + [keep.(transmits := keep.transmits + 1)] && View() == HandOut(old(View()), keep)
    {
      handed := handed + multiset{keep.tag};
      RemoveItem(keep);
      if keep.transmits + 1 >= transmitLimit {
        Finished(keep);
        return reinsert;
      }
      return reinsert + [keep.(transmits := keep.transmits + 1)];
    }

    method PutBack(reinsert: seq<Item>)
      requires Valid() && (ready || reinsert == [])
      modifies this`tq, this`tm
      ensures Valid() && View() == AddAll(old(View()), reinsert)
    {
      ghost var v := View();
      var i := 0;
      while i < |reinsert|
        invariant 0 <= i <= |reinsert| && Valid()
        invariant AddAll(View(), reinsert[i..]) == AddAll(v, reinsert)
      {
        assert reinsert[i..][1..] == reinsert[i + 1..];
        PutItem(reinsert[i]);
        i := i + 1;
      }
    }

    /** Send one item: the packing call moves from p to Take(p, keep). */
    method SendOne(ghost p: Pack, ghost c: Budget, keep: Item, overhead: nat, transmitLimit: int,
                   bytesUsed: int, toSend: seq<Message>, reinsert: seq<Item>)
      returns (used2: int, toSend2: seq<Message>, reinsert2: seq<Item>)
      requires Valid() && c.overhead == overhead && c.transmits == transmitLimit
      requires p == Pack(View(), p.tier, bytesUsed, p.sent, reinsert) && toSend == Messages(p.sent)
      modifies this`tq, this`tm, this`idGen, this`finished, this`handed
      ensures Valid() && toSend2 == Messages(Take(p, keep, c).sent)
      ensures Take(p, keep, c) == Pack(View(), p.tier, used2, p.sent + [keep], reinsert2)
    {
      used2 := bytesUsed + overhead + |keep.b.message|;
      toSend2 := toSend + [keep.b.message];
      reinsert2 := SendItem(keep, transmitLimit, reinsert);
    }

    /** One turn of the tier loop: the packing call moves from p to Turn(p). */
    method FillOnce(ghost p: Pack, ghost c: Budget, overhead: nat, transmitLimit: int, free: nat, transmits: nat,
                    bytesUsed: int, toSend: seq<Message>, reinsert: seq<Item>)
      returns (transmits2: nat, used2: int, toSend2: seq<Message>, reinsert2: seq<Item>)
      requires Valid() && c.overhead == overhead && c.transmits == transmitLimit && 0 < free == Free(p, c)
      requires p == Pack(View(), transmits, bytesUsed, p.sent, reinsert) && toSend == Messages(p.sent)
      modifies this`tq, this`tm, this`idGen, this`finished, this`handed
      ensures Valid() && toSend2 == Messages(Turn(p, c).sent)
      ensures Turn(p, c) == Pack(View(), transmits2, used2, Turn(p, c).sent, reinsert2)
    {
      var keep := Search(transmits, free);
      if keep.None? {
        return transmits + 1, bytesUsed, toSend, reinsert;
      }
      transmits2 := transmits;
      used2, toSend2, reinsert2 := SendOne(p, c, keep.value, overhead, transmitLimit, bytesUsed, toSend, reinsert);
    }

    /** The tier loop. */
    method Fill(overhead: nat, limit: int, transmitLimit: int, minTr: nat, maxTr: nat)
      returns (toSend: seq<Message>, reinsert: seq<Item>, ghost p: Pack)
      requires Valid() && ready
      modifies this`tq, this`tm, this`idGen, this`finished, this`handed
      ensures Valid()
      ensures p == Drain(Pack(old(View()), minTr, 0, [], []), maxTr, Budget(overhead, limit, transmitLimit))
      ensures p.q == View() && p.later == reinsert && toSend == Messages(p.sent)
    {
      ghost var c := Budget(overhead, limit, transmitLimit);
      p := Pack(View(), minTr, 0, [], []);
      ghost var target := Drain(p, maxTr, c);
      var bytesUsed, transmits := 0, minTr;
      toSend, reinsert := [], [];
      while transmits <= maxTr
        invariant Valid() && p == Pack(View(), transmits, bytesUsed, p.sent, reinsert)
        invariant toSend == Messages(p.sent) && Drain(p, maxTr, c) == target
        decreases if transmits <= maxTr then maxTr + 1 - transmits else 0, |tq|
      {
        var free := limit - bytesUsed - overhead;
        if free <= 0 {
          break;
        }
        DrainTurns(p, maxTr, c);
        transmits, bytesUsed, toSend, reinsert :=
          FillOnce(p, c, overhead, transmitLimit, free, transmits, bytesUsed, toSend, reinsert);
        p := Turn(p, c);
      }
    }

    /** The messages to send within the limit, by tier, each with the given overhead. */
    method GetBroadcasts(overhead: nat, limit: int, transmitLimit: int) returns (toSend: seq<Message>)
      requires Valid()
      modifies this
      ensures Valid()
      ensures var c := Budget(overhead, limit, transmitLimit);
        View() == GossipQueue.GetBroadcasts(old(View()), c) && toSend == Messages(Packed(old(View()), c).sent)
    {
      if |tq| == 0 {
        return [];
      }
      var reinsert: seq<Item>;
      ghost var p;
      toSend, reinsert, p := Fill(overhead, limit, transmitLimit, tq[0].transmits, tq[|tq| - 1].transmits);
      PutBack(reinsert);
    }

    method Prune(maxRetain: int)
      requires Valid() && ready
      modifies this`tq, this`tm, this`idGen, this`finished
      ensures Valid() && View() == GossipQueue.Prune(old(View()), maxRetain)
    {
      ghost var v := View();
      while |tq| > maxRetain
        invariant Valid() && GossipQueue.Prune(View(), maxRetain) == GossipQueue.Prune(v, maxRetain)
        decreases |tq|
      {
        if |tq| == 0 {
          break;
        }
        var cur := tq[|tq| - 1];
        Finished(cur);
        RemoveItem(cur);
      }
    }

    method Reset()
      requires Valid()
      modifies this
      ensures Valid() && View() == GossipQueue.Reset(old(View()))
    {
      FinishAll();
      tq, tm, idGen, ready := [], map[], 0, false;
    }

    method FinishAll()
      modifies this`finished
      ensures finished == old(finished) + Tags(tq)
    {
      for i := 0 to |tq|
        invariant finished + Tags(tq[i..]) == old(finished) + Tags(tq)
      {
        assert tq[i..][1..] == tq[i + 1..];
        Finished(tq[i]);
      }
    }
  }

  function Messages(xs: seq<Item>): seq<Message> {
    seq(|xs|, i requires 0 <= i < |xs| => xs[i].b.message)
  }
}
