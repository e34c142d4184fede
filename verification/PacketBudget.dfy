/** How many bytes a packet may take: the budgets of gossip and of piggy-backing, and what they guarantee. */
module PacketBudget {
  import opened Base
  import opened Packet
  import opened Wire
  import GossipQueue
  import QueueObject

  const COMPOUND_HEADER_OVERHEAD := 2
  const COMPOUND_OVERHEAD := 2
  const USER_MSG_OVERHEAD := 1

  /** Bytes of the messages, each with the given overhead. */
  function Weight(msgs: seq<Bytes>, overhead: nat): nat {
    if msgs == [] then 0 else |msgs[0]| + overhead + Weight(msgs[1..], overhead)
  }

  lemma {:induction false} WeightOfSum(a: seq<Bytes>, b: seq<Bytes>, overhead: nat)
    ensures Weight(a + b, overhead) == Weight(a, overhead) + Weight(b, overhead)
  {
    if a == [] {
      assert a + b == b;
    } else {
      WeightOfSum(a[1..], b, overhead);
      assert (a + b)[1..] == a[1..] + b;
    }
  }

  lemma {:induction false} WeightIsCost(items: seq<GossipQueue.Item>, overhead: nat)
    ensures Weight(QueueObject.Messages(items), overhead) == GossipQueue.Cost(items, overhead)
  {
    if items != [] {
      WeightIsCost(items[1..], overhead);
      assert QueueObject.Messages(items)[1..] == QueueObject.Messages(items[1..]);
    }
  }

  // ------------------------------------------------------------------- collecting

  /** A delegate's own broadcasts, asked for with a per-message overhead and a limit. */
  type Delegate = (nat, int) -> seq<Bytes>

  ghost predicate Honours(d: Delegate) {
    forall overhead, limit :: Weight(d(overhead, limit), overhead) <= limit || d(overhead, limit) == []
  }

  function Framed(msgs: seq<Bytes>): seq<Bytes> {
    seq(|msgs|, i requires 0 <= i < |msgs| => [USER] + msgs[i])
  }

  lemma {:induction false} FramedWeighs(msgs: seq<Bytes>, overhead: nat)
    ensures Weight(Framed(msgs), overhead) == Weight(msgs, overhead + USER_MSG_OVERHEAD)
  {
    if msgs != [] {
      FramedWeighs(msgs[1..], overhead);
      assert Framed(msgs)[1..] == Framed(msgs[1..]);
    }
  }

  /** The queue's messages, then as many framed user messages as the delegate has room for. */
  function Collected(queued: seq<Bytes>, d: Option<Delegate>, overhead: nat, limit: int): seq<Bytes> {
    match d
    case None => queued
    case Some(get) =>
      var avail := limit - Weight(queued, overhead);
      if avail > overhead + USER_MSG_OVERHEAD then queued + Framed(get(overhead + USER_MSG_OVERHEAD, avail)) else queued
  }

  method GetBroadcasts(queued: seq<Bytes>, d: Option<Delegate>, overhead: nat, limit: int) returns (toSend: seq<Bytes>)
    ensures toSend == Collected(queued, d, overhead, limit)
  {
    toSend := queued;
    if d.Some? {
      var bytesUsed := 0;
      for i := 0 to |toSend|
        invariant bytesUsed == Weight(toSend[..i], overhead)
      {
        assert toSend[..i + 1] == toSend[..i] + [toSend[i]];
        WeightOfSum(toSend[..i], [toSend[i]], overhead);
        bytesUsed := bytesUsed + |toSend[i]| + overhead;
      }
      assert toSend[..|toSend|] == toSend;
      var avail := limit - bytesUsed;
      if avail > overhead + USER_MSG_OVERHEAD {
        var userMsgs := d.value(overhead + USER_MSG_OVERHEAD, avail);
        for i := 0 to |userMsgs|
          invariant toSend == queued + Framed(userMsgs)[..i]
        {
          toSend := toSend + [[USER] + userMsgs[i]];
        }
      }
    }
  }

  /** With a delegate that honours its limit, what is collected stays within the limit. */
  lemma CollectedFits(queued: seq<Bytes>, d: Option<Delegate>, overhead: nat, limit: int)
    requires d.Some? ==> Honours(d.value)
    requires queued == [] || Weight(queued, overhead) <= limit
    ensures var r := Collected(queued, d, overhead, limit); r == [] || Weight(r, overhead) <= limit
  {
    if d.Some? {
      var avail := limit - Weight(queued, overhead);
      var user := d.value(overhead + USER_MSG_OVERHEAD, avail);
      FramedWeighs(user, overhead);
      WeightOfSum(queued, Framed(user), overhead);
      assert user == [] ==> Framed(user) == [];
      assert queued + [] == queued;
    }
  }

  /** The bytes of a list of messages. */
  function Total(msgs: seq<Bytes>): nat {
    if msgs == [] then 0 else |msgs[0]| + Total(msgs[1..])
  }

  lemma {:induction false} WeightIsTotal(msgs: seq<Bytes>, overhead: nat)
    ensures Weight(msgs, overhead) == Total(msgs) + overhead * |msgs|
  {
    if msgs != [] {
      WeightIsTotal(msgs[1..], overhead);
      assert overhead * |msgs| == overhead * |msgs[1..]| + overhead;
    }
  }

  /** Behind the queued messages come the delegate's, each with type 8 in front. */
  ghost predicate Behind(queued: seq<Bytes>, user: seq<Bytes>, r: seq<Bytes>) {
    && |r| == |queued| + |user| && r[..|queued|] == queued
    && forall i :: 0 <= i < |user| ==> r[|queued| + i] == [8] + user[i]
  }

  lemma AskedForRoom(queued: seq<Bytes>, get: Delegate, overhead: nat, limit: int, room: int)
    requires room == limit - Weight(queued, overhead)
    ensures var r := Collected(queued, Some(get), overhead, limit);
      if room <= overhead + 1 then r == queued else Behind(queued, get(overhead + 1, room), r)
  {
  }

  /**
   * The delegate is asked exactly when room is left for more than the overhead and the type byte of a
   * message, for what fits that room.
   */
  lemma DelegateIsAsked(queued: seq<Bytes>, get: Delegate, overhead: nat, limit: int, room: int)
    requires room == limit - Total(queued) - overhead * |queued|
    ensures var r := Collected(queued, Some(get), overhead, limit);
      if room <= overhead + 1 then r == queued else Behind(queued, get(overhead + 1, room), r)
  {
    assert room == limit - Weight(queued, overhead) by {
      WeightIsTotal(queued, overhead);
    }
    AskedForRoom(queued, get, overhead, limit, room);
  }

  /** What the gossip queue hands out for this limit, as messages. */
  function Queued(q: GossipQueue.Queue, overhead: nat, limit: int, transmits: int): seq<Bytes> {
    QueueObject.Messages(GossipQueue.Packed(q, GossipQueue.Budget(overhead, limit, transmits)).sent)
  }

  lemma QueuedFits(q: GossipQueue.Queue, overhead: nat, limit: int, transmits: int)
    requires GossipQueue.Ordered(q)
    ensures var r := Queued(q, overhead, limit, transmits); r == [] || Weight(r, overhead) <= limit
  {
    var c := GossipQueue.Budget(overhead, limit, transmits);
    GossipQueue.GetBroadcastsFits(q, c);
    WeightIsCost(GossipQueue.Packed(q, c).sent, overhead);
  }

  // ---------------------------------------------------------------------- packets

  lemma {:induction false} BodiesWeigh(msgs: seq<Bytes>)
    ensures |Bodies(msgs)| + 2 * |msgs| == Weight(msgs, COMPOUND_OVERHEAD)
  {
    if msgs != [] {
      BodiesWeigh(msgs[1..]);
    }
  }

  lemma CompoundSize(msgs: seq<Bytes>)
    ensures |Compound(msgs)| == COMPOUND_HEADER_OVERHEAD + Weight(msgs, COMPOUND_OVERHEAD)
  {
    BodiesWeigh(msgs);
  }

  lemma JoinedSize(msgs: seq<Bytes>)
    requires msgs != []
    ensures |Joined(msgs)| ==
      if |msgs| == 1 then |msgs[0]| else COMPOUND_HEADER_OVERHEAD + Weight(msgs, COMPOUND_OVERHEAD)
    ensures |Joined(msgs)| <= COMPOUND_HEADER_OVERHEAD + Weight(msgs, COMPOUND_OVERHEAD)
  {
    CompoundSize(msgs);
  }

  function Overhead(secret: Option<Secret>): nat {
    match secret
    case None => 0
    case Some(s) => EncryptOverhead(s.vsn)
  }

  ghost predicate SoundSecret(secret: Option<Secret>) {
    secret.Some? ==> |secret.value.nonce| == NONCE_SIZE && secret.value.vsn <= 1
  }

  /** The bytes of a checksum header, where there is one. */
  function Header(s: Sender): nat {
    if s.peerTakesCrc then 5 else 0
  }

  /** The largest content that still fits the buffer once sealed; less than nothing where none does. */
  function Room(udp: int, secret: Option<Secret>): int {
    match secret
    case None => udp
    case Some(s) => if s.vsn == 0 then (udp - 29) / BLOCK_SIZE * BLOCK_SIZE - 1 else udp - 29
  }

  lemma CheckedSize(co: Codec, on: bool, msg: Bytes)
    ensures |Checked(co, on, msg)| == |msg| + if on then 5 else 0
  {
    Uint32RoundTrip(co.crc(msg));
  }

  lemma SealedFitsIff(ci: Cipher, secret: Option<Secret>, msg: Bytes, udp: int)
    requires Honest(ci) && SoundSecret(secret)
    ensures |Sealed(ci, secret, msg)| <= udp <==> |msg| <= Room(udp, secret)
    ensures |Sealed(ci, secret, msg)| <= |msg| + Overhead(secret)
  {
    if secret.Some? {
      var k := secret.value;
      EncryptedLengthIsExact(ci, k.vsn, k.key, k.nonce, msg, []);
      PaddedFitsIff(|msg|, udp - 29);
    }
  }

  lemma PaddedFitsIff(n: nat, room: int)
    ensures n + PadLength(n) <= room <==> n <= room / BLOCK_SIZE * BLOCK_SIZE - 1
  {
    assert n + PadLength(n) == (n / BLOCK_SIZE + 1) * BLOCK_SIZE;
  }

  /** Any packet fits exactly when its content, compressed if that helps, leaves room for header and sealing. */
  lemma PacketFitsIff(ci: Cipher, co: Codec, s: Sender, msg: Bytes, udp: int)
    requires Honest(ci) && SoundSecret(s.secret)
    ensures |OnTheWire(ci, co, s, msg)| <= udp <==>
      |Shrunk(co, s.compression, msg)| + Header(s) <= Room(udp, s.secret)
  {
    var m := Shrunk(co, s.compression, msg);
    CheckedSize(co, s.peerTakesCrc, m);
    SealedFitsIff(ci, s.secret, Checked(co, s.peerTakesCrc, m), udp);
  }

  /** Compression only shrinks, a checksum adds its header, encryption at most its overhead. */
  lemma WireSize(ci: Cipher, co: Codec, s: Sender, msg: Bytes)
    requires Honest(ci) && SoundSecret(s.secret)
    ensures |OnTheWire(ci, co, s, msg)| <= |msg| + Header(s) + Overhead(s.secret)
  {
    var m := Shrunk(co, s.compression, msg);
    CheckedSize(co, s.peerTakesCrc, m);
    SealedFitsIff(ci, s.secret, Checked(co, s.peerTakesCrc, m), 0);
  }

  /** The overhead gossip is charged: that of the version in use, wherever there are keys, sealed or not. */
  function Charged(keys: Option<byte>): nat {
    match keys
    case None => 0
    case Some(vsn) => EncryptOverhead(vsn)
  }

  /** A sender seals only if it has keys, with the version in use; with keys it may still send plain. */
  predicate SealsWith(keys: Option<byte>, s: Sender) {
    s.secret.Some? ==> keys == Some(s.secret.value.vsn)
  }

  function GossipBudget(udp: int, keys: Option<byte>): int {
    udp - COMPOUND_HEADER_OVERHEAD - Charged(keys)
  }

  /** Two bytes for the compound's header, and 45 or 29 where there are keys. */
  lemma GossipBudgets(udp: int, keys: Option<byte>)
    ensures GossipBudget(udp, keys) == udp - 2 - match keys case None => 0 case Some(v) => if v == 0 then 45 else 29
  {
  }

  /** The messages of one gossip packet: the queue's, then the delegate's. */
  function GossipMessages(q: GossipQueue.Queue, d: Option<Delegate>, transmits: int, keys: Option<byte>, udp: int): seq<Bytes> {
    var avail := GossipBudget(udp, keys);
    Collected(Queued(q, COMPOUND_OVERHEAD, avail, transmits), d, COMPOUND_OVERHEAD, avail)
  }

  /**
   * A gossip packet filled from the queue and an honest delegate fits the UDP buffer, with the overhead to
   * spare where a sender with keys sends plain; a checksum header, which is charged to no budget, comes on top.
   */
  lemma GossipPacketFits(q: GossipQueue.Queue, d: Option<Delegate>, transmits: int, keys: Option<byte>,
                         ci: Cipher, co: Codec, s: Sender, udp: int)
    requires GossipQueue.Ordered(q) && (d.Some? ==> Honours(d.value)) && Honest(ci)
    requires SoundSecret(s.secret) && SealsWith(keys, s)
    ensures var msgs := GossipMessages(q, d, transmits, keys, udp);
      msgs != [] ==> |OnTheWire(ci, co, s, Joined(msgs))| <= udp + Header(s) - (if s.secret.None? then Charged(keys) else 0)
  {
    var avail := GossipBudget(udp, keys);
    var queued := Queued(q, COMPOUND_OVERHEAD, avail, transmits);
    QueuedFits(q, COMPOUND_OVERHEAD, avail, transmits);
    CollectedFits(queued, d, COMPOUND_OVERHEAD, avail);
    var msgs := GossipMessages(q, d, transmits, keys, udp);
    if msgs != [] {
      JoinedSize(msgs);
      WireSize(ci, co, s, Joined(msgs));
    }
  }

  /** After every run of the queue, restarts and wraps included. */
  lemma GossipPacketFitsAfterEveryRun(ops: seq<GossipQueue.Op>, invalidates: GossipQueue.Relation, transmits: int,
                                      d: Option<Delegate>, keys: Option<byte>, ci: Cipher, co: Codec, s: Sender, udp: int)
    requires (d.Some? ==> Honours(d.value)) && Honest(ci) && SoundSecret(s.secret) && SealsWith(keys, s)
    ensures var msgs := GossipMessages(GossipQueue.Run(ops, invalidates, transmits), d, transmits, keys, udp);
      msgs != [] ==> |OnTheWire(ci, co, s, Joined(msgs))| <= udp + Header(s) - (if s.secret.None? then Charged(keys) else 0)
  {
    GossipQueue.RunOrders(ops, invalidates, transmits);
    GossipPacketFits(GossipQueue.Run(ops, invalidates, transmits), d, transmits, keys, ci, co, s, udp);
  }

  /**
   * When the messages of an uncompressed packet fit, checksum or not: a single message needs
   * its own bytes, several need the compound's header and a length slot each.
   */
  lemma GossipFitsIff(ci: Cipher, co: Codec, s: Sender, msgs: seq<Bytes>, udp: int)
    requires Honest(ci) && SoundSecret(s.secret) && msgs != [] && !s.compression
    ensures |OnTheWire(ci, co, s, Joined(msgs))| <= udp <==>
      (if |msgs| == 1 then |msgs[0]| else COMPOUND_HEADER_OVERHEAD + Weight(msgs, COMPOUND_OVERHEAD)) + Header(s)
        <= Room(udp, s.secret)
  {
    JoinedSize(msgs);
    PacketFitsIff(ci, co, s, Joined(msgs), udp);
  }

  // A queue of two three-byte broadcasts, and a buffer of twelve bytes.

  function FullRun(): seq<GossipQueue.Op> {
    var b := GossipQueue.Broadcast(GossipQueue.Unique, [4, 0, 0]);
    [GossipQueue.Submit(b), GossipQueue.Submit(b)]
  }

  function FullTree(): seq<GossipQueue.Item> {
    var b := GossipQueue.Broadcast(GossipQueue.Unique, [4, 0, 0]);
    [GossipQueue.Item(0, 3, 2, b, "", 1), GossipQueue.Item(0, 3, 1, b, "", 0)]
  }

  lemma FullQueue(invalidates: GossipQueue.Relation, transmits: int)
    ensures var q := GossipQueue.Run(FullRun(), invalidates, transmits); q.tree == FullTree() && q.idGen == 2
  {
    var ops := FullRun();
    var b := ops[0].b;
    var one := GossipQueue.Enqueue(GossipQueue.EMPTY, b, invalidates);
    assert ops[..1] == [ops[0]] && ops[..1][..0] == [];
    assert GossipQueue.Run(ops[..0], invalidates, transmits) == GossipQueue.EMPTY;
    assert GossipQueue.Run(ops[..1], invalidates, transmits) == one;
    assert one.tree == [FullTree()[1]] && one.idGen == 1 && one.submitted == 1;
    assert GossipQueue.Run(ops, invalidates, transmits) == GossipQueue.Enqueue(one, b, invalidates);
  }

  /** The bound is reached: this gossip packet is five bytes too long for a peer that takes checksums. */
  lemma GossipOverrun(invalidates: GossipQueue.Relation, transmits: int, ci: Cipher, co: Codec)
    ensures var msgs := GossipMessages(GossipQueue.Run(FullRun(), invalidates, transmits), None, transmits, None, 12);
      msgs != [] && |OnTheWire(ci, co, Sender(false, true, None), Joined(msgs))| == 12 + 5
  {
    var q := GossipQueue.Run(FullRun(), invalidates, transmits);
    FullQueue(invalidates, transmits);
    AllIsSent(q, transmits);
    var msgs: seq<Bytes> := [[4, 0, 0], [4, 0, 0]];
    assert msgs[1..][1..] == [] && Weight(msgs, COMPOUND_OVERHEAD) == 10;
    JoinedSize(msgs);
    CheckedSize(co, true, Joined(msgs));
  }

  lemma AllIsSent(q: GossipQueue.Queue, transmits: int)
    requires q.tree == FullTree() && q.idGen <= GossipQueue.MAX_INT64
    ensures Queued(q, COMPOUND_OVERHEAD, 10, transmits) == [[4, 0, 0], [4, 0, 0]]
  {
    assert FullTree()[1..][1..] == [];
    assert GossipQueue.Cost(q.tree, COMPOUND_OVERHEAD) == 10;
    GossipQueue.DrainedIffAllFits(q, GossipQueue.Budget(COMPOUND_OVERHEAD, 10, transmits));
  }

  function PiggyBackBudget(udp: int, msg: Bytes, secret: Option<Secret>): int {
    udp - |msg| - COMPOUND_HEADER_OVERHEAD - Overhead(secret)
  }

  /** The compound of a message and its passengers: the budget, less what is unused, plus the lead's own length slot. */
  lemma PiggyBackSize(msg: Bytes, extra: seq<Bytes>, udp: int, secret: Option<Secret>)
    ensures |Compound([msg] + extra)| + Overhead(secret) ==
      udp + COMPOUND_OVERHEAD - (PiggyBackBudget(udp, msg, secret) - Weight(extra, COMPOUND_OVERHEAD))
  {
    CompoundSize([msg] + extra);
    WeightOfSum([msg], extra, COMPOUND_OVERHEAD);
  }

  /** So a plain packet with passengers fits exactly when they leave two bytes of their budget unused. */
  lemma PiggyBackFitsIff(msg: Bytes, extra: seq<Bytes>, udp: int)
    ensures |Compound([msg] + extra)| <= udp <==>
      Weight(extra, COMPOUND_OVERHEAD) + COMPOUND_OVERHEAD <= PiggyBackBudget(udp, msg, None)
  {
    PiggyBackSize(msg, extra, udp, None);
  }

  /** The messages that travel with msg. */
  function Passengers(q: GossipQueue.Queue, d: Option<Delegate>, transmits: int, secret: Option<Secret>, msg: Bytes, udp: int): seq<Bytes> {
    var avail := PiggyBackBudget(udp, msg, secret);
    Collected(Queued(q, COMPOUND_OVERHEAD, avail, transmits), d, COMPOUND_OVERHEAD, avail)
  }

  /** In every case it exceeds the UDP buffer by at most two bytes and the checksum header. */
  lemma PiggyBackBound(q: GossipQueue.Queue, d: Option<Delegate>, transmits: int,
                       ci: Cipher, co: Codec, s: Sender, msg: Bytes, udp: int)
    requires GossipQueue.Ordered(q) && (d.Some? ==> Honours(d.value)) && Honest(ci) && SoundSecret(s.secret)
    ensures var extra := Passengers(q, d, transmits, s.secret, msg, udp);
      extra != [] ==> |OnTheWire(ci, co, s, Compound([msg] + extra))| <= udp + 2 + Header(s)
  {
    var avail := PiggyBackBudget(udp, msg, s.secret);
    var queued := Queued(q, COMPOUND_OVERHEAD, avail, transmits);
    QueuedFits(q, COMPOUND_OVERHEAD, avail, transmits);
    CollectedFits(queued, d, COMPOUND_OVERHEAD, avail);
    var extra := Collected(queued, d, COMPOUND_OVERHEAD, avail);
    PiggyBackSize(msg, extra, udp, s.secret);
    WireSize(ci, co, s, Compound([msg] + extra));
  }

  lemma PiggyBackBoundAfterEveryRun(ops: seq<GossipQueue.Op>, invalidates: GossipQueue.Relation, transmits: int,
                                    d: Option<Delegate>, ci: Cipher, co: Codec, s: Sender, msg: Bytes, udp: int)
    requires (d.Some? ==> Honours(d.value)) && Honest(ci) && SoundSecret(s.secret)
    ensures var extra := Passengers(GossipQueue.Run(ops, invalidates, transmits), d, transmits, s.secret, msg, udp);
      extra != [] ==> |OnTheWire(ci, co, s, Compound([msg] + extra))| <= udp + 2 + Header(s)
  {
    GossipQueue.RunOrders(ops, invalidates, transmits);
    PiggyBackBound(GossipQueue.Run(ops, invalidates, transmits), d, transmits, ci, co, s, msg, udp);
  }

  /** The bound is reached: the two broadcasts fill what a one-byte message leaves of thirteen bytes. */
  lemma PiggyBackOverrun(invalidates: GossipQueue.Relation, transmits: int, ci: Cipher, co: Codec, crc: bool)
    ensures var extra := Passengers(GossipQueue.Run(FullRun(), invalidates, transmits), None, transmits, None, [0], 13);
      var s := Sender(false, crc, None);
      extra != [] && |OnTheWire(ci, co, s, Compound([[0]] + extra))| == 13 + 2 + Header(s)
  {
    FullQueue(invalidates, transmits);
    AllIsSent(GossipQueue.Run(FullRun(), invalidates, transmits), transmits);
    var msg: Bytes, extra: seq<Bytes> := [0], [[4, 0, 0], [4, 0, 0]];
    assert extra[1..][1..] == [] && Weight(extra, COMPOUND_OVERHEAD) == 10;
    PiggyBackSize(msg, extra, 13, None);
    CheckedSize(co, crc, Compound([msg] + extra));
  }
}
