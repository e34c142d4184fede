/** Where what the members of a cluster record about one another comes from: from the member itself. */
module Provenance {
  import opened Base
  import opened SuspicionTimer
  import opened Protocol
  import opened NodeRuns
  import opened Cluster

  /** What each member has said. */
  type Voices = map<Name, seq<Msg>>

  function VoicesOf(c: Members): Voices {
    map y | y in c :: c[y].said
  }

  /** x itself has given out this address, this metadata and these versions, under this incarnation. */
  predicate Announced(vo: Voices, x: Name, addr: Addr, meta: Meta, vsn: Versions, inc: Uint32) {
    x in vo && AliveM(AliveMsg(inc, x, addr, meta, Some(vsn))) in vo[x]
  }

  /** An entry that is Alive is just what x announced; any other keeps what x announced under some incarnation up to its own. */
  ghost predicate EntryBacked(vo: Voices, x: Name, e: Entry) {
    exists inc: Uint32 :: inc <= e.inc && (e.status.Alive? ==> inc == e.inc) && Announced(vo, x, e.addr, e.meta, e.vsn, inc)
  }

  ghost predicate MsgBacked(vo: Voices, m: Msg) {
    match m
    case AliveM(a) => a.vsn.Some? && Announced(vo, a.node, a.addr, a.meta, a.vsn.value, a.inc)
    case PushM(r) => r.status.Alive? ==> r.vsn.Some? && Announced(vo, r.node, r.addr, r.meta, r.vsn.value, r.inc)
    case _ => true
  }

  ghost predicate TableBacked(vo: Voices, table: map<Name, Entry>) {
    forall x :: x in table ==> EntryBacked(vo, x, table[x])
  }

  ghost predicate SaidBacked(vo: Voices, said: seq<Msg>) {
    forall m :: m in said ==> MsgBacked(vo, m)
  }

  /** Nothing is unsaid. */
  ghost predicate Louder(vo: Voices, bu: Voices) {
    bu.Keys == vo.Keys && forall x :: x in vo ==> vo[x] <= bu[x]
  }

  lemma LouderKeepsEntry(vo: Voices, bu: Voices, x: Name, e: Entry)
    requires Louder(vo, bu) && EntryBacked(vo, x, e)
    ensures EntryBacked(bu, x, e)
  {
    var inc: Uint32 :| inc <= e.inc && (e.status.Alive? ==> inc == e.inc) && Announced(vo, x, e.addr, e.meta, e.vsn, inc);
    assert Announced(bu, x, e.addr, e.meta, e.vsn, inc);
  }

  lemma LouderKeeps(vo: Voices, bu: Voices, table: map<Name, Entry>, said: seq<Msg>)
    requires Louder(vo, bu) && TableBacked(vo, table) && SaidBacked(vo, said)
    ensures TableBacked(bu, table) && SaidBacked(bu, said)
  {
    forall x | x in table ensures EntryBacked(bu, x, table[x]) {
      LouderKeepsEntry(vo, bu, x, table[x]);
    }
  }

  ghost predicate Backed(vo: Voices, nd: Node) {
    nd.self in vo && vo[nd.self] == nd.said && TableBacked(vo, nd.table) && SaidBacked(vo, nd.said)
  }

  /** What nd has become is backed, once what it has said since is counted in. */
  ghost predicate StaysBacked(vo: Voices, nd: Node, r: Node) {
    && r.self == nd.self && nd.said <= r.said
    && TableBacked(vo[r.self := r.said], r.table) && SaidBacked(vo[r.self := r.said], r.said)
  }

  // ----------------------------------------------------------------- handler by handler

  /** One entry is set to e, backed by then, and m is said. */
  lemma SetAndSay(vo: Voices, nd: Node, r: Node, x: Name, e: Entry, m: Msg)
    requires Backed(vo, nd) && r.self == nd.self && r.table == nd.table[x := e] && r.said == nd.said + [m]
    requires EntryBacked(vo[r.self := r.said], x, e) && MsgBacked(vo[r.self := r.said], m)
    ensures StaysBacked(vo, nd, r)
  {
    var bu := vo[r.self := r.said];
    assert Louder(vo, bu);
    LouderKeeps(vo, bu, nd.table, nd.said);
  }

  lemma JustSay(vo: Voices, nd: Node, r: Node, m: Msg)
    requires Backed(vo, nd) && r.self == nd.self && r.table == nd.table && r.said == nd.said + [m] && MsgBacked(vo, m)
    ensures StaysBacked(vo, nd, r)
  {
    var bu := vo[r.self := r.said];
    assert Louder(vo, bu);
    LouderKeeps(vo, bu, nd.table, nd.said + [m]);
  }

  lemma StayQuiet(vo: Voices, nd: Node, r: Node)
    requires Backed(vo, nd) && r.self == nd.self && r.said == nd.said && TableBacked(vo, r.table)
    ensures StaysBacked(vo, nd, r)
  {
    assert vo[r.self := r.said] == vo;
  }

  /** A status other than Alive, under an incarnation no smaller, keeps the backing. */
  lemma AccusedIsBacked(vo: Voices, x: Name, e: Entry, f: Entry)
    requires EntryBacked(vo, x, e) && f.addr == e.addr && f.meta == e.meta && f.vsn == e.vsn
    requires e.inc <= f.inc && !f.status.Alive?
    ensures EntryBacked(vo, x, f)
  {
    var inc: Uint32 :| inc <= e.inc && (e.status.Alive? ==> inc == e.inc) && Announced(vo, x, e.addr, e.meta, e.vsn, inc);
    assert inc <= f.inc && Announced(vo, x, f.addr, f.meta, f.vsn, inc);
  }

  lemma AnnouncedIsBacked(vo: Voices, x: Name, e: Entry)
    requires Announced(vo, x, e.addr, e.meta, e.vsn, e.inc)
    ensures EntryBacked(vo, x, e)
  {
  }

  lemma LastIsIn(said: seq<Msg>, m: Msg)
    ensures m in said + [m]
  {
    assert (said + [m])[|said|] == m;
  }

  lemma RefuteBacked(vo: Voices, nd: Node, accused: Uint32, bumps: nat)
    requires Backed(vo, nd) && nd.self in nd.table
    ensures StaysBacked(vo, nd, Refute(nd, accused, bumps))
  {
    var r := Refute(nd, accused, bumps);
    var e, m := r.table[nd.self], AliveM(AliveOf(nd.self, r.table[nd.self]));
    LastIsIn(nd.said, m);
    AnnouncedIsBacked(vo[r.self := r.said], nd.self, e);
    SetAndSay(vo, nd, r, nd.self, e, m);
  }

  lemma SuspectBacked(vo: Voices, nd: Node, s: SuspectMsg, env: Env)
    requires Backed(vo, nd)
    ensures StaysBacked(vo, nd, SuspectNode(nd, s, env))
  {
    var r := SuspectNode(nd, s, env);
    if r.said == nd.said {
      StayQuiet(vo, nd, r);
    } else if s.node in nd.timers {
      JustSay(vo, nd, r, SuspectM(s));
    } else if s.node == nd.self {
      RefuteBacked(vo, nd, s.inc, env.bumps);
    } else {
      var bu := vo[r.self := r.said];
      assert Louder(vo, bu);
      LouderKeepsEntry(vo, bu, s.node, nd.table[s.node]);
      AccusedIsBacked(bu, s.node, nd.table[s.node], r.table[s.node]);
      SetAndSay(vo, nd, r, s.node, r.table[s.node], SuspectM(s));
    }
  }

  lemma DeadBacked(vo: Voices, nd: Node, d: DeadMsg, env: Env)
    requires Backed(vo, nd)
    ensures StaysBacked(vo, nd, DeadNode(nd, d, env))
  {
    var r := DeadNode(nd, d, env);
    if r.said == nd.said {
      StayQuiet(vo, nd, r);
    } else if d.node == nd.self && !nd.left {
      RefuteBacked(vo, ClearTimer(nd, d.node), d.inc, env.bumps);
    } else {
      var bu := vo[r.self := r.said];
      assert Louder(vo, bu);
      LouderKeepsEntry(vo, bu, d.node, nd.table[d.node]);
      AccusedIsBacked(bu, d.node, nd.table[d.node], r.table[d.node]);
      SetAndSay(vo, nd, r, d.node, r.table[d.node], DeadM(d));
    }
  }

  /** The message is backed already, or it is the member's own announcement. */
  ghost predicate Sourced(vo: Voices, nd: Node, a: AliveMsg, bootstrap: bool) {
    a.vsn.Some? && (MsgBacked(vo, AliveM(a)) || (bootstrap && a.node == nd.self))
  }

  /** What becomes of a message about somebody else, or of one's own announcement. */
  lemma NewsOutcome(nd: Node, a: AliveMsg, bootstrap: bool, env: Env)
    requires (bootstrap || a.node != nd.self) && a.vsn.Some?
    ensures var r := AliveNode(nd, a, bootstrap, env);
      || (r.table == nd.table && r.said == nd.said)
      || (a.node !in nd.table && a.inc == 0 && r.said == nd.said
          && r.table == nd.table[a.node := Entry(a.addr, a.meta, a.vsn.value, 0, Dead, 0)])
      || (a.node in r.table && r.said == nd.said + [AliveM(a)] && r.table == nd.table[a.node := r.table[a.node]]
          && r.table[a.node] == Entry(a.addr, a.meta, a.vsn.value, a.inc, Alive, r.table[a.node].change))
  {
  }

  lemma NewsBacked(vo: Voices, nd: Node, a: AliveMsg, bootstrap: bool, env: Env)
    requires Backed(vo, nd) && Sourced(vo, nd, a, bootstrap) && (bootstrap || a.node != nd.self)
    ensures StaysBacked(vo, nd, AliveNode(nd, a, bootstrap, env))
  {
    var r := AliveNode(nd, a, bootstrap, env);
    NewsOutcome(nd, a, bootstrap, env);
    var bu := vo[r.self := r.said];
    if r.said == nd.said + [AliveM(a)] && a.node in r.table {
      LastIsIn(nd.said, AliveM(a));
      assert Louder(vo, bu);
      assert Announced(bu, a.node, a.addr, a.meta, a.vsn.value, a.inc);
      AnnouncedIsBacked(bu, a.node, r.table[a.node]);
      SetAndSay(vo, nd, r, a.node, r.table[a.node], AliveM(a));
    } else if r.table != nd.table {
      AnnouncedIsBacked(vo, a.node, r.table[a.node]);
      StayQuiet(vo, nd, r);
    } else {
      StayQuiet(vo, nd, r);
    }
  }

  /** News of oneself changes nothing, or is answered with one's own entry. */
  lemma SelfNewsOutcome(nd: Node, a: AliveMsg, env: Env)
    requires a.node == nd.self
    ensures var r := AliveNode(nd, a, false, env);
      || (r.said == nd.said && (r.table == nd.table || (a.inc == 0 && r.table == nd.table[nd.self := NewEntry(a)])))
      || (nd.self in r.table && r.table == nd.table[nd.self := r.table[nd.self]]
          && r.said == nd.said + [AliveM(AliveOf(nd.self, r.table[nd.self]))])
  {
  }

  lemma SelfNewsBacked(vo: Voices, nd: Node, a: AliveMsg, env: Env)
    requires Backed(vo, nd) && a.node == nd.self && MsgBacked(vo, AliveM(a))
    ensures StaysBacked(vo, nd, AliveNode(nd, a, false, env))
  {
    var r := AliveNode(nd, a, false, env);
    SelfNewsOutcome(nd, a, env);
    if r.said == nd.said {
      if r.table != nd.table {
        AnnouncedIsBacked(vo, nd.self, NewEntry(a));
      }
      StayQuiet(vo, nd, r);
    } else {
      var m := AliveM(AliveOf(nd.self, r.table[nd.self]));
      LastIsIn(nd.said, m);
      AnnouncedIsBacked(vo[r.self := r.said], nd.self, r.table[nd.self]);
      SetAndSay(vo, nd, r, nd.self, r.table[nd.self], m);
    }
  }

  lemma AliveBacked(vo: Voices, nd: Node, a: AliveMsg, env: Env)
    requires Backed(vo, nd) && MsgBacked(vo, AliveM(a))
    ensures StaysBacked(vo, nd, AliveNode(nd, a, false, env))
  {
    if a.node == nd.self {
      SelfNewsBacked(vo, nd, a, env);
    } else {
      NewsBacked(vo, nd, a, false, env);
    }
  }

  lemma ReceiveBacked(vo: Voices, nd: Node, m: Msg, env: Env)
    requires Backed(vo, nd) && MsgBacked(vo, m)
    ensures StaysBacked(vo, nd, Receive(nd, m, env))
  {
    match m
    case AliveM(a) => AliveBacked(vo, nd, a, env);
    case SuspectM(s) => SuspectBacked(vo, nd, s, env);
    case DeadM(d) => DeadBacked(vo, nd, d, env);
    case PushM(r) =>
      match r.status {
        case Alive => AliveBacked(vo, nd, AliveMsg(r.inc, r.node, r.addr, r.meta, r.vsn), env);
        case Left => DeadBacked(vo, nd, DeadMsg(r.inc, r.node, r.node), env);
        case _ => SuspectBacked(vo, nd, SuspectMsg(r.inc, r.node, nd.self), env);
      }
  }

  lemma ReapBacked(vo: Voices, nd: Node, now: int, order: seq<Name>)
    requires Backed(vo, nd)
    ensures StaysBacked(vo, nd, Reap(nd, now, order))
  {
    var r := Reap(nd, now, order);
    assert forall x :: x in r.table ==> x in nd.table && r.table[x] == nd.table[x];
    StayQuiet(vo, nd, r);
  }

  lemma ShareBacked(vo: Voices, nd: Node, x: Name)
    requires Backed(vo, nd) && x in nd.table
    ensures StaysBacked(vo, nd, Say(nd, PushM(PushOf(x, nd.table[x]))))
  {
    assert EntryBacked(vo, x, nd.table[x]);
    JustSay(vo, nd, Say(nd, PushM(PushOf(x, nd.table[x]))), PushM(PushOf(x, nd.table[x])));
  }

  lemma StepBacked(vo: Voices, nd: Node, ev: Event, env: Env)
    requires Backed(vo, nd) && Enabled(nd, ev, env) && (ev.Recv? ==> MsgBacked(vo, ev.m))
    ensures StaysBacked(vo, nd, Step(nd, ev, env))
  {
    match ev
    case Recv(m) => ReceiveBacked(vo, nd, m, env);
    case Announce(inc, addr, meta) =>
      NewsBacked(vo, nd, AliveMsg(inc, nd.self, addr, meta, Some(nd.cfg.vsn)), true, env);
    case Reset(order) => ReapBacked(vo, nd, env.now, order);
    case Share(x) => ShareBacked(vo, nd, x);
    case Accuse(x) => JustSay(vo, nd, Step(nd, ev, env), SuspectM(SuspectMsg(nd.table[x].inc, x, nd.self)));
    case Farewell(inc) => JustSay(vo, nd, Step(nd, ev, env), DeadM(DeadMsg(inc, nd.self, nd.self)));
    case Check(x, began) =>
      if TimeoutDue(nd, x, began).Some? {
        JustSay(vo, nd, Step(nd, ev, env), DeadM(TimeoutDue(nd, x, began).value));
      } else {
        StayQuiet(vo, nd, nd);
      }
    case _ => StayQuiet(vo, nd, Step(nd, ev, env));
  }

  // ------------------------------------------------------------------------ every run

  ghost predicate AllBacked(c: Members) {
    forall y :: y in c ==> c[y].self == y && Backed(VoicesOf(c), c[y])
  }

  lemma ReplaceKeepsBacked(c: Members, at: Name, r: Node)
    requires AllBacked(c) && at in c && StaysBacked(VoicesOf(c), c[at], r)
    ensures AllBacked(c[at := r])
  {
    var vo, bu := VoicesOf(c), VoicesOf(c)[at := r.said];
    assert VoicesOf(c[at := r]) == bu && Louder(vo, bu);
    forall y | y in c && y != at ensures Backed(bu, c[y]) {
      LouderKeeps(vo, bu, c[y].table, c[y].said);
    }
  }

  lemma SaidIsBacked(c: Members, m: Msg)
    requires AllBacked(c) && Said(c, m)
    ensures MsgBacked(VoicesOf(c), m)
  {
    var z :| z in c && m in c[z].said;
    assert Backed(VoicesOf(c), c[z]);
  }

  lemma ActKeepsBacked(c: Members, act: Action)
    requires AllBacked(c) && CanAct(c, act)
    ensures AllBacked(Act(c, act))
  {
    if act.ev.Recv? {
      SaidIsBacked(c, act.ev.m);
    }
    StepBacked(VoicesOf(c), c[act.at], act.ev, act.env);
    ReplaceKeepsBacked(c, act.at, Step(c[act.at], act.ev, act.env));
  }

  lemma {:induction false} RunKeepsBacked(run: seq<Members>, acts: seq<Action>, i: nat)
    requires IsClusterRun(run, acts) && i < |run|
    ensures AllBacked(run[i])
  {
    if i > 0 {
      RunKeepsBacked(run, acts, i - 1);
      ActKeepsBacked(run[i - 1], acts[i - 1]);
    }
  }

  /** x has said a about itself, and e repeats it: under the same incarnation if e is Alive, else under one no smaller. */
  predicate Repeats(x: Name, e: Entry, a: AliveMsg) {
    && a.node == x && a.addr == e.addr && a.meta == e.meta && a.vsn == Some(e.vsn)
    && a.inc <= e.inc && (e.status.Alive? ==> a.inc == e.inc)
  }

  /**
   * In every run: whatever a peer records about x repeats what x itself has said, incarnation and metadata
   * together where the entry is Alive; an accusation moves the incarnation and keeps the rest. And whoever
   * says that x is alive passes on a message of x's own.
   */
  lemma OnlyTheMemberSpeaksForItself(run: seq<Members>, acts: seq<Action>, i: nat)
    requires IsClusterRun(run, acts) && i < |run|
    ensures forall y, x :: y in run[i] && x in run[i][y].table ==>
      x in run[i] && exists a :: AliveM(a) in run[i][x].said && Repeats(x, run[i][y].table[x], a)
    ensures forall a :: Said(run[i], AliveM(a)) ==> a.node in run[i] && AliveM(a) in run[i][a.node].said
  {
    RunKeepsBacked(run, acts, i);
    var vo := VoicesOf(run[i]);
    forall y, x | y in run[i] && x in run[i][y].table
      ensures x in run[i] && exists a :: AliveM(a) in run[i][x].said && Repeats(x, run[i][y].table[x], a)
    {
      var e := run[i][y].table[x];
      assert Backed(vo, run[i][y]) && EntryBacked(vo, x, e);
      var inc: Uint32 :| inc <= e.inc && (e.status.Alive? ==> inc == e.inc) && Announced(vo, x, e.addr, e.meta, e.vsn, inc);
      assert Repeats(x, e, AliveMsg(inc, x, e.addr, e.meta, Some(e.vsn)));
    }
    forall a | Said(run[i], AliveM(a)) ensures a.node in run[i] && AliveM(a) in run[i][a.node].said {
      SaidIsBacked(run[i], AliveM(a));
    }
  }
}
