/**
 * What each message does to a member, in full and in terms of the message and the recorded entry: when it
 * is ignored, when it takes effect, and everything it leaves behind when it does.
 */
module Effects {
  import opened Base
  import opened SuspicionTimer
  import opened Protocol
  import opened NodeRuns

  // --------------------------------------------------------------------- accusations

  /** An accusation about somebody listed, under an incarnation the entry has not outgrown. */
  predicate Current(nd: Node, x: Name, inc: Uint32) {
    x in nd.table && nd.table[x].inc <= inc
  }

  /** Nothing happens: it is stale, its sender was heard already or no longer counts, or the peer is gone. */
  lemma AccusationIsIgnored(nd: Node, s: SuspectMsg, env: Env)
    requires Current(nd, s.node, s.inc) ==>
      if s.node in nd.timers then nd.timers[s.node].n >= nd.timers[s.node].k || s.from in nd.timers[s.node].seen
      else nd.table[s.node].status != Alive
    ensures SuspectNode(nd, s, env) == nd
  {
  }

  /** A further accuser of a suspect is counted, remembered and passed on. */
  lemma AccusationConfirms(nd: Node, s: SuspectMsg, env: Env)
    requires Current(nd, s.node, s.inc) && s.node in nd.timers
    requires nd.timers[s.node].n < nd.timers[s.node].k && s.from !in nd.timers[s.node].seen
    ensures var t, r := nd.timers[s.node], SuspectNode(nd, s, env);
      && r == nd.(timers := r.timers, said := r.said)
      && r.timers == nd.timers[s.node := Tally(t.k, t.n + 1, t.seen + {s.from})]
      && r.said == nd.said + [SuspectM(s)]
  {
  }

  /**
   * The first accuser of a peer that is Alive: it becomes Suspect under the accusation's incarnation, with a
   * timer that waits for suspicionMult - 2 others if at least suspicionMult members are listed, for none otherwise.
   */
  lemma AccusationBegins(nd: Node, s: SuspectMsg, env: Env)
    requires Current(nd, s.node, s.inc) && s.node !in nd.timers && nd.table[s.node].status == Alive && s.node != nd.self
    ensures var e, r := nd.table[s.node], SuspectNode(nd, s, env);
      var k := if nd.cfg.suspicionMult <= |nd.order| then nd.cfg.suspicionMult - 2 else 0;
      && r == nd.(table := r.table, timers := r.timers, said := r.said)
      && r.table == nd.table[s.node := Entry(e.addr, e.meta, e.vsn, s.inc, Suspect, env.now)]
      && r.timers == nd.timers[s.node := Tally(k, 0, {s.from})]
      && r.said == nd.said + [SuspectM(s)]
  {
  }

  /** A refutation: the own entry under the new counter, and the news of it. */
  ghost predicate Refutes(nd: Node, r: Node) {
    && nd.self in nd.table
    && var e := nd.table[nd.self];
       && r == nd.(counter := r.counter, table := r.table, said := r.said)
       && r.table == nd.table[nd.self := Entry(e.addr, e.meta, e.vsn, r.counter, e.status, e.change)]
       && r.said == nd.said + [AliveM(AliveMsg(r.counter, nd.self, e.addr, e.meta, Some(e.vsn)))]
  }

  /** The next number if it is above the accusation, else one above the accusation and the draws that came between. */
  function Above(counter: Uint32, accused: Uint32, bumps: nat): Uint32 {
    var next := if counter + 1 == UINT32_SIZE then 0 else counter + 1;
    if accused < next then next else (accused + 1 + bumps) % UINT32_SIZE
  }

  lemma RefuteDraws(c: Uint32, accused: Uint32, bumps: nat)
    ensures RefuteInc(c, accused, bumps) == Above(c, accused, bumps)
  {
  }

  /** An accusation of oneself is refuted. */
  lemma AccusationOfSelf(nd: Node, s: SuspectMsg, env: Env)
    requires Current(nd, s.node, s.inc) && s.node == nd.self && s.node !in nd.timers && nd.table[s.node].status == Alive
    ensures Refutes(nd, SuspectNode(nd, s, env))
    ensures SuspectNode(nd, s, env).counter == Above(nd.counter, s.inc, env.bumps)
  {
  }

  // -------------------------------------------------------------------------- notices

  lemma NoticeIsIgnored(nd: Node, d: DeadMsg, env: Env)
    requires !Current(nd, d.node, d.inc)
    ensures DeadNode(nd, d, env) == nd
  {
  }

  /** A notice about somebody Dead or Left already only clears a timer. */
  lemma NoticeOfTheGone(nd: Node, d: DeadMsg, env: Env)
    requires Current(nd, d.node, d.inc) && (nd.table[d.node].status == Dead || nd.table[d.node].status == Left)
    ensures DeadNode(nd, d, env) == nd.(timers := nd.timers - {d.node})
  {
  }

  /**
   * Otherwise, unless it is about a member that has not left itself, it takes effect: Left under the notice's
   * incarnation if it is self-signed, Dead if not, stamped now, its timer gone, and the notice passed on.
   */
  lemma NoticeTakesEffect(nd: Node, d: DeadMsg, env: Env)
    requires Current(nd, d.node, d.inc) && (nd.table[d.node].status == Alive || nd.table[d.node].status == Suspect)
    requires d.node == nd.self ==> nd.left
    ensures var e, r := nd.table[d.node], DeadNode(nd, d, env);
      && r == nd.(table := r.table, timers := r.timers, said := r.said)
      && r.table == nd.table[d.node :=
           Entry(e.addr, e.meta, e.vsn, d.inc, if d.node == d.from then Left else Dead, env.now)]
      && r.timers == nd.timers - {d.node}
      && r.said == nd.said + [DeadM(d)]
  {
  }

  /** A member that has not left refutes notices of its own death. */
  lemma NoticeOfSelf(nd: Node, d: DeadMsg, env: Env)
    requires Current(nd, d.node, d.inc) && (nd.table[d.node].status == Alive || nd.table[d.node].status == Suspect)
    requires d.node == nd.self && !nd.left
    ensures Refutes(nd.(timers := nd.timers - {nd.self}), DeadNode(nd, d, env))
    ensures DeadNode(nd, d, env).counter == Above(nd.counter, d.inc, env.bumps)
  {
  }

  // ---------------------------------------------------------------- news of being alive

  /** The name is free to be taken over: its owner left, or has been dead for longer than the reclaim time. */
  predicate Reclaimable(nd: Node, e: Entry, now: int) {
    e.status == Left || (e.status == Dead && nd.cfg.reclaimTime > 0 && e.change + nd.cfg.reclaimTime < now)
  }

  /**
   * What stops such news: it is about oneself and one has left; its versions are impossible; the delegate
   * does not take it; or its address is not allowed, or not yet, where the name is known under another.
   */
  predicate Stopped(nd: Node, a: AliveMsg, env: Env) {
    || (nd.left && a.node == nd.self)
    || (a.vsn.Some? && (a.vsn.value.pMin == 0 || a.vsn.value.pMax == 0 || a.vsn.value.pMax < a.vsn.value.pMin))
    || (nd.cfg.aliveDelegate && (a.vsn.None? || !env.admit))
    || (a.node !in nd.table && !env.allowed)
    || (a.node in nd.table && nd.table[a.node].addr != a.addr
        && !(env.allowed && Reclaimable(nd, nd.table[a.node], env.now)))
  }

  lemma StoppedIffNotPassed(nd: Node, a: AliveMsg, env: Env)
    ensures Stopped(nd, a, env) <==> !Passes(nd, a, env)
  {
  }

  lemma StoppedChangesNothing(nd: Node, a: AliveMsg, bootstrap: bool, env: Env)
    requires Stopped(nd, a, env)
    ensures AliveNode(nd, a, bootstrap, env) == nd
  {
    StoppedIffNotPassed(nd, a, env);
  }

  /** News worth recording: of a newer incarnation, from a new address, or one's own announcement unless it is outdated. */
  predicate WorthRecording(nd: Node, a: AliveMsg, bootstrap: bool) {
    if a.node == nd.self then bootstrap && (a.node in nd.table ==> nd.table[a.node].inc <= a.inc)
    else if a.node in nd.table then nd.table[a.node].inc < a.inc || nd.table[a.node].addr != a.addr
    else 0 < a.inc
  }

  function VersionsGiven(nd: Node, a: AliveMsg): Versions {
    if a.vsn.Some? then a.vsn.value
    else if a.node in nd.table then nd.table[a.node].vsn
    else Versions(0, 0, 0, 0, 0, 0)
  }

  /** It records all that the message says, and passes it on; the stamp stays if the peer was Alive already. */
  lemma NewsIsRecorded(nd: Node, a: AliveMsg, bootstrap: bool, env: Env)
    requires !Stopped(nd, a, env) && WorthRecording(nd, a, bootstrap)
    ensures var r := AliveNode(nd, a, bootstrap, env);
      var stamp := if a.node in nd.table && nd.table[a.node].status == Alive then nd.table[a.node].change else env.now;
      && r == nd.(order := r.order, table := r.table, timers := r.timers, said := r.said)
      && r.table == nd.table[a.node := Entry(a.addr, a.meta, VersionsGiven(nd, a), a.inc, Alive, stamp)]
      && r.timers == nd.timers - {a.node}
      && r.said == nd.said + [AliveM(a)]
      && (a.node in nd.table ==> r.order == nd.order)
  {
    StoppedIffNotPassed(nd, a, env);
  }

  /** News of a peer that is neither newer nor from elsewhere changes nothing. */
  lemma OldNewsIsIgnored(nd: Node, a: AliveMsg, bootstrap: bool, env: Env)
    requires a.node in nd.table && a.node != nd.self && !WorthRecording(nd, a, bootstrap)
    ensures AliveNode(nd, a, bootstrap, env) == nd
  {
  }

  /** A newcomer's first incarnation is 0 until it says otherwise: the news of incarnation 0 lists it, not yet Alive. */
  lemma NewcomerIsListed(nd: Node, a: AliveMsg, env: Env)
    requires !Stopped(nd, a, env) && a.node !in nd.table && a.node != nd.self && a.inc == 0
    ensures var r := AliveNode(nd, a, false, env);
      && r == nd.(order := r.order, table := r.table)
      && r.table == nd.table[a.node := Entry(a.addr, a.meta, VersionsGiven(nd, a), 0, Dead, 0)]
  {
    StoppedIffNotPassed(nd, a, env);
  }

  /** News of oneself that one did not give out is refuted, unless it only repeats what is known or is outdated. */
  lemma NewsOfSelf(nd: Node, a: AliveMsg, env: Env)
    requires !Stopped(nd, a, env) && a.node == nd.self && nd.self in nd.table
    ensures var e, cleared, r := nd.table[nd.self], nd.(timers := nd.timers - {nd.self}), AliveNode(nd, a, false, env);
      if a.inc < e.inc then r == nd
      else if a.inc == e.inc && a.meta == e.meta && a.vsn == Some(e.vsn) then r == cleared
      else Refutes(cleared, r) && r.counter == Above(nd.counter, a.inc, env.bumps)
  {
    StoppedIffNotPassed(nd, a, env);
  }

  /** A newcomer takes a random place, and whoever stood there goes to the end. */
  lemma NewcomerTakesAPlace(nd: Node, a: AliveMsg, bootstrap: bool, env: Env)
    requires !Stopped(nd, a, env) && a.node !in nd.table
    ensures var n, r := |nd.order|, AliveNode(nd, a, bootstrap, env).order;
      var k := if n == 0 then 0 else env.rnd % n;
      && |r| == n + 1 && r[k] == a.node && (n > 0 ==> r[n] == nd.order[k])
      && forall i :: 0 <= i < n && i != k ==> r[i] == nd.order[i]
  {
    StoppedIffNotPassed(nd, a, env);
  }

  // ------------------------------------------------------------------------ own news

  /** setAlive and UpdateNode: the announcement, once let through, is on record and passed on. */
  lemma AnnouncementIsRecorded(nd: Node, inc: Uint32, addr: Addr, meta: Meta, env: Env)
    requires !Stopped(nd, AliveMsg(inc, nd.self, addr, meta, Some(nd.cfg.vsn)), env)
    requires nd.self in nd.table ==> nd.table[nd.self].inc <= inc
    ensures var r := Step(nd, Announce(inc, addr, meta), env);
      && nd.self in r.table && r.table[nd.self].addr == addr && r.table[nd.self].meta == meta
      && r.table[nd.self].vsn == nd.cfg.vsn && r.table[nd.self].inc == inc && r.table[nd.self].status == Alive
      && r.said == nd.said + [AliveM(AliveMsg(inc, nd.self, addr, meta, Some(nd.cfg.vsn)))]
  {
    NewsIsRecorded(nd, AliveMsg(inc, nd.self, addr, meta, Some(nd.cfg.vsn)), true, env);
  }

  // ---------------------------------------------------------------------------- rows

  /** A row of a received table is news, a farewell or an accusation of one's own, by its status. */
  lemma RowIsAMessage(nd: Node, r: PushState, env: Env)
    ensures Receive(nd, PushM(r), env) ==
      match r.status
      case Alive => Receive(nd, AliveM(AliveMsg(r.inc, r.node, r.addr, r.meta, r.vsn)), env)
      case Left => Receive(nd, DeadM(DeadMsg(r.inc, r.node, r.node)), env)
      case _ => Receive(nd, SuspectM(SuspectMsg(r.inc, r.node, nd.self)), env)
  {
  }

  /** A received table is merged row by row, from the first to the last. */
  lemma RowsInTurn(nd: Node, rows: seq<PushState>, envs: seq<Env>, r: PushState, env: Env)
    requires |envs| == |rows|
    ensures MergeState(nd, [], []) == nd
    ensures MergeState(nd, rows + [r], envs + [env]) == Receive(MergeState(nd, rows, envs), PushM(r), env)
  {
    assert (rows + [r])[..|rows|] == rows && (envs + [env])[..|rows|] == envs;
  }

  /** A reset forgets exactly those that have been Dead or Left for longer than the dead time. */
  lemma ResetForgets(nd: Node, order: seq<Name>, env: Env)
    ensures var r := Step(nd, Reset(order), env);
      && r == nd.(order := order, table := r.table)
      && r.table.Keys <= nd.table.Keys
      && forall x :: x in nd.table ==>
           var e := nd.table[x];
           && (x in r.table <==> !((e.status == Dead || e.status == Left) && e.change + nd.cfg.deadTime < env.now))
           && (x in r.table ==> r.table[x] == e)
  {
  }

  // ----------------------------------------------------------------- what a member says

  /** The steps in which a member only speaks, and what it says. */
  lemma Sayings(nd: Node, x: Name, began: int, inc: Uint32, env: Env)
    requires x in nd.table
    ensures var e := nd.table[x];
      && Step(nd, Accuse(x), env) == nd.(said := nd.said + [SuspectM(SuspectMsg(e.inc, x, nd.self))])
      && Step(nd, Share(x), env)
           == nd.(said := nd.said + [PushM(PushState(x, e.addr, e.meta, e.inc, e.status, Some(e.vsn)))])
      && Step(nd, Farewell(inc), env) == nd.(said := nd.said + [DeadM(DeadMsg(inc, nd.self, nd.self))])
      && Step(nd, Check(x, began), env)
           == if e.status == Suspect && e.change == began
              then nd.(said := nd.said + [DeadM(DeadMsg(e.inc, x, nd.self))]) else nd
  {
  }
}
